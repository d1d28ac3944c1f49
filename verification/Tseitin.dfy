/** Tseitin encoding of Boolean term DAGs, memoized per term. */
module TseitinCnf {
  import opened Lits
  import opened GateCnf

  /** The connectives; every other operator is an atom to the encoder. */
  datatype Op = True | False | Not | And | Or | Xor | Implies | Ite | Atom

  datatype Term = Term(op: Op, args: seq<nat>)

  type Arena = seq<Term>

  /** Arguments come before their term, and connectives have the arguments they read. */
  ghost predicate ArenaOk(ts: Arena) {
    forall id :: 0 <= id < |ts| ==>
      && (forall i :: 0 <= i < |ts[id].args| ==> ts[id].args[i] < id)
      && ArityOk(ts[id].op, |ts[id].args|)
  }

  ghost predicate ArityOk(op: Op, n: nat) {
    match op
    case True => n == 0
    case False => n == 0
    case Not => n == 1
    case Xor => n == 2
    case Implies => n == 2
    case Ite => n == 3
    case _ => true
  }

  /** The truth of a connective, from the truth of its arguments. */
  ghost predicate Connective(op: Op, bs: seq<bool>)
    requires ArityOk(op, |bs|)
  {
    match op
    case True => true
    case False => false
    case Not => !bs[0]
    case And => forall i :: 0 <= i < |bs| ==> bs[i]
    case Or => exists i :: 0 <= i < |bs| && bs[i]
    case Xor => bs[0] != bs[1]
    case Implies => bs[0] ==> bs[1]
    case Ite => if bs[0] then bs[1] else bs[2]
    case Atom => false
  }

  /** The truth of a term when exactly the atoms of `env` are true. */
  ghost predicate Eval(ts: Arena, id: nat, env: iset<nat>)
    requires ArenaOk(ts) && id < |ts|
    decreases id, 1
  {
    if ts[id].op == Atom then id in env else Connective(ts[id].op, ArgValues(ts, id, env))
  }

  /** The truths of the arguments of a term. */
  ghost function ArgValues(ts: Arena, id: nat, env: iset<nat>): (bs: seq<bool>)
    requires ArenaOk(ts) && id < |ts|
    ensures |bs| == |ts[id].args|
    decreases id, 0
  {
    seq(|ts[id].args|, i requires 0 <= i < |ts[id].args| => Eval(ts, ts[id].args[i], env))
  }

  ghost function Truths(m: Valuation, ls: seq<Lit>): (r: seq<bool>)
    ensures |r| == |ls|
  {
    seq(|ls|, i requires 0 <= i < |ls| => Holds(m, ls[i]))
  }

  // ---------- the clauses of a connective ----------

  ghost predicate HasGate(op: Op) { op in {And, Or, Xor, Implies, Ite} }

  function NotAll(ls: seq<Lit>): (r: seq<Lit>)
    ensures |r| == |ls| && forall i :: 0 <= i < |ls| ==> r[i] == ls[i].Not()
  {
    seq(|ls|, i requires 0 <= i < |ls| => ls[i].Not())
  }

  ghost function GateClauses(op: Op, p: Lit, ls: seq<Lit>): set<seq<Lit>>
    requires ArityOk(op, |ls|)
  {
    match op
    case And => (set a | a in ls :: [p.Not(), a]) + {NotAll(ls) + [p]}
    case Or => (set a | a in ls :: [a.Not(), p]) + {ls + [p.Not()]}
    case Xor => XorClauses(p, ls[0], ls[1])
    case Implies => {[p.Not(), ls[0].Not(), ls[1]], [p, ls[0]], [p, ls[1].Not()]}
    case Ite => IteClauses(p, ls[0], ls[1], ls[2])
    case _ => {}
  }

  lemma ManyClause(m: Valuation, ls: seq<Lit>, p: Lit)
    ensures SatClause(m, ls + [p]) <==> Holds(m, p) || exists i :: 0 <= i < |ls| && Holds(m, ls[i])
  {
    var c := ls + [p];
    if SatClause(m, c) {
      var l :| l in c && Holds(m, l);
      var i :| 0 <= i < |c| && c[i] == l;
      assert i < |ls| ==> Holds(m, ls[i]);
    }
    if Holds(m, p) { assert c[|ls|] == p; assert p in c; }
    if exists i :: 0 <= i < |ls| && Holds(m, ls[i]) {
      var i :| 0 <= i < |ls| && Holds(m, ls[i]);
      assert c[i] == ls[i];
      assert ls[i] in c;
    }
  }

  lemma AndGate(m: Valuation, p: Lit, ls: seq<Lit>)
    ensures ModelsAll(m, GateClauses(And, p, ls)) <==> (Holds(m, p) <==> forall i :: 0 <= i < |ls| ==> Holds(m, ls[i]))
  {
    var cs := GateClauses(And, p, ls);
    ManyClause(m, NotAll(ls), p);
    assert NotAll(ls) + [p] in cs;
    forall i | 0 <= i < |ls| ensures [p.Not(), ls[i]] in cs && (SatClause(m, [p.Not(), ls[i]]) <==> !Holds(m, p) || Holds(m, ls[i])) {
      Sat2(m, p.Not(), ls[i]);
      assert ls[i] in ls;
    }
    assert forall i :: 0 <= i < |ls| ==> (Holds(m, NotAll(ls)[i]) <==> !Holds(m, ls[i]));
    forall c | c in cs ensures c == NotAll(ls) + [p] || exists i :: 0 <= i < |ls| && c == [p.Not(), ls[i]] {
      if c != NotAll(ls) + [p] {
        var a :| a in ls && c == [p.Not(), a];
        var i :| 0 <= i < |ls| && ls[i] == a;
      }
    }
  }

  lemma OrGate(m: Valuation, p: Lit, ls: seq<Lit>)
    ensures ModelsAll(m, GateClauses(Or, p, ls)) <==> (Holds(m, p) <==> exists i :: 0 <= i < |ls| && Holds(m, ls[i]))
  {
    var cs := GateClauses(Or, p, ls);
    ManyClause(m, ls, p.Not());
    assert ls + [p.Not()] in cs;
    forall i | 0 <= i < |ls| ensures [ls[i].Not(), p] in cs && (SatClause(m, [ls[i].Not(), p]) <==> !Holds(m, ls[i]) || Holds(m, p)) {
      Sat2(m, ls[i].Not(), p);
      assert ls[i] in ls;
    }
    forall c | c in cs ensures c == ls + [p.Not()] || exists i :: 0 <= i < |ls| && c == [ls[i].Not(), p] {
      if c != ls + [p.Not()] {
        var a :| a in ls && c == [a.Not(), p];
        var i :| 0 <= i < |ls| && ls[i] == a;
      }
    }
  }

  lemma ImpliesGate(m: Valuation, p: Lit, a: Lit, b: Lit)
    ensures ModelsAll(m, {[p.Not(), a.Not(), b], [p, a], [p, b.Not()]}) <==> (Holds(m, p) <==> (Holds(m, a) ==> Holds(m, b)))
  {
    var cs := {[p.Not(), a.Not(), b], [p, a], [p, b.Not()]};
    Sat3(m, p.Not(), a.Not(), b);
    Sat2(m, p, a);
    Sat2(m, p, b.Not());
    assert [p.Not(), a.Not(), b] in cs && [p, a] in cs && [p, b.Not()] in cs;
  }

  /** The clauses say exactly that the literal is the connective of the others. */
  lemma GateMeaning(m: Valuation, op: Op, p: Lit, ls: seq<Lit>)
    requires HasGate(op) && ArityOk(op, |ls|)
    ensures ModelsAll(m, GateClauses(op, p, ls)) <==> (Holds(m, p) <==> Connective(op, Truths(m, ls)))
  {
    var bs := Truths(m, ls);
    match op {
      case And => AndGate(m, p, ls); assert forall i :: 0 <= i < |ls| ==> (bs[i] <==> Holds(m, ls[i]));
      case Or => OrGate(m, p, ls); assert forall i :: 0 <= i < |ls| ==> (bs[i] <==> Holds(m, ls[i]));
      case Xor => XorMeaning(m, p, ls[0], ls[1]);
      case Implies => ImpliesGate(m, p, ls[0], ls[1]);
      case Ite => IteMeaning(m, p, ls[0], ls[1], ls[2]);
    }
  }

  // ---------- what the cache means ----------

  type Cache = map<nat, Lit>

  ghost function ArgLits(ts: Arena, cache: Cache, id: nat): (ls: seq<Lit>)
    requires id < |ts| && forall a :: a in ts[id].args ==> a in cache
    ensures |ls| == |ts[id].args|
  {
    seq(|ts[id].args|, i requires 0 <= i < |ts[id].args| => assert ts[id].args[i] in ts[id].args; cache[ts[id].args[i]])
  }

  /** Cached terms exist, and a cached connective has its arguments cached. */
  ghost predicate CacheOk(ts: Arena, cache: Cache, n: nat) {
    && (forall id :: id in cache ==> id < |ts| && cache[id].v < n)
    && (forall id, a :: id in cache && ts[id].op != Atom && a in ts[id].args ==> a in cache)
  }

  /** In the valuation, every cached connective has the truth its arguments' literals give it. */
  ghost predicate Consistent(ts: Arena, cache: Cache, m: Valuation)
    requires ArenaOk(ts) && forall id :: id in cache ==> id < |ts|
    requires forall id, a :: id in cache && ts[id].op != Atom && a in ts[id].args ==> a in cache
  {
    forall id :: id in cache && ts[id].op != Atom ==>
      (Holds(m, cache[id]) <==> Connective(ts[id].op, Truths(m, ArgLits(ts, cache, id))))
  }

  /** The atoms that a valuation of the solver's variables makes true. */
  ghost function EnvOf(ts: Arena, cache: Cache, m: Valuation): iset<nat> {
    iset id | id in cache && Holds(m, cache[id])
  }

  /** Consistency of each connective gives every cached literal the value of its term. */
  lemma {:induction false} CachedValue(ts: Arena, cache: Cache, n: nat, m: Valuation, id: nat)
    requires ArenaOk(ts) && CacheOk(ts, cache, n) && Consistent(ts, cache, m) && id in cache
    ensures Holds(m, cache[id]) <==> Eval(ts, id, EnvOf(ts, cache, m))
    decreases id
  {
    if ts[id].op != Atom {
      var env, args := EnvOf(ts, cache, m), ts[id].args;
      forall i | 0 <= i < |args| ensures Holds(m, cache[args[i]]) <==> Eval(ts, args[i], env) {
        assert args[i] in args;
        CachedValue(ts, cache, n, m, args[i]);
      }
      assert Truths(m, ArgLits(ts, cache, id)) == ArgValues(ts, id, env);
    }
  }

  /** In the valuation, every cached literal has the value of its term under `env`. */
  ghost predicate Realizes(ts: Arena, cache: Cache, m: Valuation, env: iset<nat>)
    requires ArenaOk(ts) && forall id :: id in cache ==> id < |ts|
  {
    forall id :: id in cache ==> (Holds(m, cache[id]) <==> Eval(ts, id, env))
  }

  ghost predicate AllTrue(ts: Arena, roots: set<nat>, env: iset<nat>)
    requires ArenaOk(ts)
  {
    forall r :: r in roots ==> r < |ts| && Eval(ts, r, env)
  }

  // ---------- the state of an encoding ----------

  ghost predicate ModelMeans(ts: Arena, cache: Cache, n: nat, trueLit: Option<Lit>, roots: set<nat>, m: Valuation)
    requires ArenaOk(ts) && CacheOk(ts, cache, n)
  {
    && Consistent(ts, cache, m)
    && (trueLit.Some? ==> Holds(m, trueLit.value))
    && (forall r :: r in roots ==> r in cache && Holds(m, cache[r]))
  }

  ghost predicate Realized(ts: Arena, cache: Cache, base: Formula, s: Formula, m0: Valuation, env: iset<nat>)
    requires ArenaOk(ts) && CacheOk(ts, cache, s.n)
  {
    exists m: Valuation :: ModelsAll(m, s.f) && SameBelow(m0, m, base.n) && Realizes(ts, cache, m, env)
  }

  /** `s` has grown from `base` by an exact encoding of the cached terms and of the assertion of
      the terms `roots`: every model of `s` gives the cached literals the values of their terms,
      and each truth assignment of the atoms that makes the roots true extends every model of
      `base` to such a model. */
  ghost predicate Encoded(ts: Arena, cache: Cache, trueLit: Option<Lit>, base: Formula, roots: set<nat>, s: Formula) {
    && ArenaOk(ts) && CacheOk(ts, cache, s.n) && s.Wf() && base.Wf() && base.n <= s.n && base.f <= s.f
    && (trueLit.Some? ==> trueLit.value.v < s.n)
    && (forall r :: r in roots ==> r in cache)
    && (forall m: Valuation :: ModelsAll(m, s.f) ==> ModelMeans(ts, cache, s.n, trueLit, roots, m))
    && (forall m0: Valuation, env: iset<nat> :: ModelsAll(m0, base.f) && AllTrue(ts, roots, env) ==>
        Realized(ts, cache, base, s, m0, env))
  }

  /** A variable above the base that nothing mentions yet. */
  ghost predicate Unused(v: nat, cache: Cache, trueLit: Option<Lit>, base: Formula, s: Formula) {
    && base.n <= v < s.n
    && (forall c, l :: c in s.f && l in c ==> l.v != v)
    && (forall id :: id in cache ==> cache[id].v != v)
    && (trueLit.Some? ==> trueLit.value.v != v)
  }

  lemma WithUnused(m: Valuation, v: nat, b: bool, f: set<seq<Lit>>)
    requires ModelsAll(m, f) && forall c, l :: c in f && l in c ==> l.v != v
    ensures ModelsAll(With(m, v, b), f)
  {
    forall c | c in f ensures SatClause(With(m, v, b), c) {
      var l :| l in c && Holds(m, l);
      assert Holds(With(m, v, b), l);
    }
  }

  lemma OneMoreVar(ts: Arena, cache: Cache, trueLit: Option<Lit>, base: Formula, roots: set<nat>, s: Formula)
    requires Encoded(ts, cache, trueLit, base, roots, s)
    ensures Encoded(ts, cache, trueLit, base, roots, Formula(s.n + 1, s.f))
    ensures Unused(s.n, cache, trueLit, base, Formula(s.n + 1, s.f))
  {
    var s' := Formula(s.n + 1, s.f);
    forall m: Valuation | ModelsAll(m, s'.f) ensures ModelMeans(ts, cache, s'.n, trueLit, roots, m) {
      assert ModelMeans(ts, cache, s.n, trueLit, roots, m);
    }
    forall m0: Valuation, env: iset<nat> | ModelsAll(m0, base.f) && AllTrue(ts, roots, env)
      ensures Realized(ts, cache, base, s', m0, env)
    {
      assert Realized(ts, cache, base, s, m0, env);
    }
  }

  /** A literal for a term that needs no gate. */
  lemma AddAlias(ts: Arena, cache: Cache, trueLit: Option<Lit>, base: Formula, roots: set<nat>, s: Formula, id: nat, l: Lit)
    requires Encoded(ts, cache, trueLit, base, roots, s)
    requires id < |ts| && id !in cache && ts[id].op != Atom && l.v < s.n
    requires forall a :: a in ts[id].args ==> a in cache
    requires forall m: Valuation :: ModelsAll(m, s.f) ==>
      (Holds(m, l) <==> Connective(ts[id].op, Truths(m, ArgLits(ts, cache, id))))
    ensures Encoded(ts, cache[id := l], trueLit, base, roots, s)
  {
    var cache' := cache[id := l];
    forall m: Valuation | ModelsAll(m, s.f) ensures ModelMeans(ts, cache', s.n, trueLit, roots, m) {
      assert ModelMeans(ts, cache, s.n, trueLit, roots, m);
      StillConsistent(ts, cache, s.n, m, id, l);
    }
    forall m0: Valuation, env: iset<nat> | ModelsAll(m0, base.f) && AllTrue(ts, roots, env)
      ensures Realized(ts, cache', base, s, m0, env)
    {
      assert Realized(ts, cache, base, s, m0, env);
      var m: Valuation :| ModelsAll(m, s.f) && SameBelow(m0, m, base.n) && Realizes(ts, cache, m, env);
      ArgsRealized(ts, cache, m, env, id);
      assert Realizes(ts, cache', m, env);
    }
  }

  /** A new entry that is consistent itself leaves the others so. */
  lemma StillConsistent(ts: Arena, cache: Cache, n: nat, m: Valuation, id: nat, l: Lit)
    requires ArenaOk(ts) && CacheOk(ts, cache, n) && Consistent(ts, cache, m) && l.v < n
    requires id < |ts| && id !in cache && (ts[id].op != Atom ==> forall a :: a in ts[id].args ==> a in cache)
    requires ts[id].op != Atom ==> (Holds(m, l) <==> Connective(ts[id].op, Truths(m, ArgLits(ts, cache, id))))
    ensures CacheOk(ts, cache[id := l], n) && Consistent(ts, cache[id := l], m)
  {
    var cache' := cache[id := l];
    forall k | k in cache' && ts[k].op != Atom
      ensures Holds(m, cache'[k]) <==> Connective(ts[k].op, Truths(m, ArgLits(ts, cache', k)))
    {
      assert ArgLits(ts, cache', k) == ArgLits(ts, cache, k) by {
        forall i | 0 <= i < |ts[k].args| ensures ArgLits(ts, cache', k)[i] == ArgLits(ts, cache, k)[i] {
          assert ts[k].args[i] in ts[k].args;
        }
      }
    }
  }

  /** Realized arguments have the truths that evaluation gives them. */
  lemma ArgsRealized(ts: Arena, cache: Cache, m: Valuation, env: iset<nat>, id: nat)
    requires ArenaOk(ts) && (forall k :: k in cache ==> k < |ts|) && Realizes(ts, cache, m, env)
    requires id < |ts| && forall a :: a in ts[id].args ==> a in cache
    ensures Truths(m, ArgLits(ts, cache, id)) == ArgValues(ts, id, env)
  {
    forall i | 0 <= i < |ts[id].args|
      ensures Truths(m, ArgLits(ts, cache, id))[i] == ArgValues(ts, id, env)[i]
    {
      assert ts[id].args[i] in ts[id].args;
    }
  }

  /** A fresh variable for an atom. */
  lemma AddAtom(ts: Arena, cache: Cache, trueLit: Option<Lit>, base: Formula, roots: set<nat>, s: Formula, id: nat, v: nat)
    requires Encoded(ts, cache, trueLit, base, roots, s) && Unused(v, cache, trueLit, base, s)
    requires id < |ts| && id !in cache && ts[id].op == Atom
    ensures Encoded(ts, cache[id := Lit(v, false)], trueLit, base, roots, s)
  {
    var p := Lit(v, false);
    var cache' := cache[id := p];
    forall m: Valuation | ModelsAll(m, s.f) ensures ModelMeans(ts, cache', s.n, trueLit, roots, m) {
      assert ModelMeans(ts, cache, s.n, trueLit, roots, m);
      StillConsistent(ts, cache, s.n, m, id, p);
    }
    forall m0: Valuation, env: iset<nat> | ModelsAll(m0, base.f) && AllTrue(ts, roots, env)
      ensures Realized(ts, cache', base, s, m0, env)
    {
      assert Realized(ts, cache, base, s, m0, env);
      var m: Valuation :| ModelsAll(m, s.f) && SameBelow(m0, m, base.n) && Realizes(ts, cache, m, env);
      var k := With(m, v, id in env);
      WithUnused(m, v, id in env, s.f);
      RealizesWith(ts, cache, m, env, v, id in env);
      assert Realizes(ts, cache', k, env);
      assert SameBelow(m0, k, base.n);
    }
  }

  lemma RealizesWith(ts: Arena, cache: Cache, m: Valuation, env: iset<nat>, v: nat, b: bool)
    requires ArenaOk(ts) && (forall id :: id in cache ==> id < |ts|) && Realizes(ts, cache, m, env)
    requires forall id :: id in cache ==> cache[id].v != v
    ensures Realizes(ts, cache, With(m, v, b), env)
  {
    forall id | id in cache ensures Holds(With(m, v, b), cache[id]) <==> Eval(ts, id, env) {
      assert Holds(With(m, v, b), cache[id]) <==> Holds(m, cache[id]);
    }
  }

  /** The clauses that define the literal of a connective. */
  ghost function WithGate(ts: Arena, cache: Cache, s: Formula, id: nat, p: Lit): Formula
    requires ArenaOk(ts) && id < |ts| && HasGate(ts[id].op) && forall a :: a in ts[id].args ==> a in cache
  {
    Formula(s.n, s.f + GateClauses(ts[id].op, p, ArgLits(ts, cache, id)))
  }

  /** Every model gives the new literal the truth of the connective. */
  lemma ConnectiveMeans(ts: Arena, cache: Cache, trueLit: Option<Lit>, base: Formula, roots: set<nat>, s: Formula, id: nat, v: nat, m: Valuation)
    requires Encoded(ts, cache, trueLit, base, roots, s) && Unused(v, cache, trueLit, base, s)
    requires id < |ts| && id !in cache && HasGate(ts[id].op)
    requires forall a :: a in ts[id].args ==> a in cache
    requires ModelsAll(m, WithGate(ts, cache, s, id, Lit(v, false)).f)
    ensures ModelMeans(ts, cache[id := Lit(v, false)], s.n, trueLit, roots, m)
  {
    var p, op, ls := Lit(v, false), ts[id].op, ArgLits(ts, cache, id);
    assert ModelsAll(m, s.f) && ModelsAll(m, GateClauses(op, p, ls));
    assert ModelMeans(ts, cache, s.n, trueLit, roots, m);
    GateMeaning(m, op, p, ls);
    StillConsistent(ts, cache, s.n, m, id, p);
  }

  /** Giving the new variable the truth of the connective satisfies its clauses. */
  lemma ConnectiveRealized(ts: Arena, cache: Cache, trueLit: Option<Lit>, base: Formula, roots: set<nat>, s: Formula, id: nat, v: nat,
                           m0: Valuation, env: iset<nat>)
    requires Encoded(ts, cache, trueLit, base, roots, s) && Unused(v, cache, trueLit, base, s)
    requires id < |ts| && id !in cache && HasGate(ts[id].op)
    requires forall a :: a in ts[id].args ==> a in cache
    requires ModelsAll(m0, base.f) && AllTrue(ts, roots, env)
    ensures Realized(ts, cache[id := Lit(v, false)], base, WithGate(ts, cache, s, id, Lit(v, false)), m0, env)
  {
    var p, op, ls := Lit(v, false), ts[id].op, ArgLits(ts, cache, id);
    assert Realized(ts, cache, base, s, m0, env);
    var m: Valuation :| ModelsAll(m, s.f) && SameBelow(m0, m, base.n) && Realizes(ts, cache, m, env);
    var b := Eval(ts, id, env);
    var k := With(m, v, b);
    WithUnused(m, v, b, s.f);
    RealizesWith(ts, cache, m, env, v, b);
    ArgsRealized(ts, cache, k, env, id);
    GateMeaning(k, op, p, ls);
    assert Holds(k, p) <==> b;
    assert ModelsAll(k, WithGate(ts, cache, s, id, p).f);
    assert Realizes(ts, cache[id := p], k, env);
    assert SameBelow(m0, k, base.n);
  }

  /** A connective: a fresh variable defined by the clauses of its gate. */
  lemma AddConnective(ts: Arena, cache: Cache, trueLit: Option<Lit>, base: Formula, roots: set<nat>, s: Formula, id: nat, v: nat)
    requires Encoded(ts, cache, trueLit, base, roots, s) && Unused(v, cache, trueLit, base, s)
    requires id < |ts| && id !in cache && HasGate(ts[id].op)
    requires forall a :: a in ts[id].args ==> a in cache
    ensures Encoded(ts, cache[id := Lit(v, false)], trueLit, base, roots, WithGate(ts, cache, s, id, Lit(v, false)))
  {
    hide Eval, ModelMeans, Realized, ModelsAll, GateClauses, AllTrue;
    var p, op, ls := Lit(v, false), ts[id].op, ArgLits(ts, cache, id);
    var cache', s' := cache[id := p], WithGate(ts, cache, s, id, p);
    GateVars(op, p, ls, s.n) by {
      forall l | l in ls ensures l.v < s.n {
        var i :| 0 <= i < |ls| && ls[i] == l;
        assert ts[id].args[i] in ts[id].args;
      }
    }
    forall m: Valuation | ModelsAll(m, s'.f) ensures ModelMeans(ts, cache', s'.n, trueLit, roots, m) {
      ConnectiveMeans(ts, cache, trueLit, base, roots, s, id, v, m);
    }
    forall m0: Valuation, env: iset<nat> | ModelsAll(m0, base.f) && AllTrue(ts, roots, env)
      ensures Realized(ts, cache', base, s', m0, env)
    {
      ConnectiveRealized(ts, cache, trueLit, base, roots, s, id, v, m0, env);
    }
  }

  lemma GateVars(op: Op, p: Lit, ls: seq<Lit>, n: nat)
    requires HasGate(op) && ArityOk(op, |ls|) && p.v < n && forall l :: l in ls ==> l.v < n
    ensures forall c, l :: c in GateClauses(op, p, ls) && l in c ==> l.v < n
  {
    forall l | l in NotAll(ls) ensures l.v < n {
      var i :| 0 <= i < |ls| && NotAll(ls)[i] == l;
      assert ls[i] in ls;
    }
    forall i | 0 <= i < |ls| ensures ls[i].v < n { assert ls[i] in ls; }
  }

  /** The literal that is true in every model. */
  lemma AddTrueLit(ts: Arena, cache: Cache, base: Formula, roots: set<nat>, s: Formula, v: nat)
    requires Encoded(ts, cache, None, base, roots, s) && Unused(v, cache, None, base, s)
    ensures Encoded(ts, cache, Some(Lit(v, false)), base, roots, Formula(s.n, s.f + {[Lit(v, false)]}))
  {
    var p := Lit(v, false);
    var s' := Formula(s.n, s.f + {[p]});
    forall m: Valuation | ModelsAll(m, s'.f) ensures ModelMeans(ts, cache, s'.n, Some(p), roots, m) {
      assert ModelsAll(m, s.f);
      assert ModelMeans(ts, cache, s.n, None, roots, m);
      assert [p] in s'.f;
      Sat1(m, p);
    }
    forall m0: Valuation, env: iset<nat> | ModelsAll(m0, base.f) && AllTrue(ts, roots, env)
      ensures Realized(ts, cache, base, s', m0, env)
    {
      assert Realized(ts, cache, base, s, m0, env);
      var m: Valuation :| ModelsAll(m, s.f) && SameBelow(m0, m, base.n) && Realizes(ts, cache, m, env);
      var k := With(m, v, true);
      WithUnused(m, v, true, s.f);
      RealizesWith(ts, cache, m, env, v, true);
      Sat1(k, p);
      assert ModelsAll(k, s'.f);
      assert SameBelow(m0, k, base.n);
    }
  }

  /** Asserting a cached term. */
  lemma AddRoot(ts: Arena, cache: Cache, trueLit: Option<Lit>, base: Formula, roots: set<nat>, s: Formula, id: nat)
    requires Encoded(ts, cache, trueLit, base, roots, s) && id in cache
    ensures Encoded(ts, cache, trueLit, base, roots + {id}, Formula(s.n, s.f + {[cache[id]]}))
  {
    var roots', s' := roots + {id}, Formula(s.n, s.f + {[cache[id]]});
    forall m: Valuation | ModelsAll(m, s'.f) ensures ModelMeans(ts, cache, s'.n, trueLit, roots', m) {
      assert ModelsAll(m, s.f);
      assert ModelMeans(ts, cache, s.n, trueLit, roots, m);
      assert [cache[id]] in s'.f;
      Sat1(m, cache[id]);
    }
    forall m0: Valuation, env: iset<nat> | ModelsAll(m0, base.f) && AllTrue(ts, roots', env)
      ensures Realized(ts, cache, base, s', m0, env)
    {
      assert AllTrue(ts, roots, env);
      assert Realized(ts, cache, base, s, m0, env);
      var m: Valuation :| ModelsAll(m, s.f) && SameBelow(m0, m, base.n) && Realizes(ts, cache, m, env);
      Sat1(m, cache[id]);
      assert ModelsAll(m, s'.f);
    }
  }

  class TseitinEncoder {
    var termToLit: map<nat, Lit>
    var litToTerm: map<Lit, nat>
    var trueLit: Option<Lit>
    /** The solver's formula when encoding began, and the terms asserted since. */
    ghost var base: Formula
    ghost var roots: set<nat>

    ghost predicate Valid(ts: Arena, solver: Sink)
      reads this, solver
    {
      Encoded(ts, termToLit, trueLit, base, roots, solver.State())
    }

    constructor (ghost ts: Arena, solver: Sink)
      requires ArenaOk(ts) && solver.State().Wf()
      ensures Valid(ts, solver) && base == solver.State() && roots == {} && termToLit == map[]
    {
      termToLit, litToTerm, trueLit := map[], map[], None;
      base, roots := solver.State(), {};
      new;
      StartEncoding(ts, solver.State());
    }

    method NewVar(ghost ts: Arena, solver: Sink) returns (v: nat)
      requires Valid(ts, solver)
      modifies solver`numVars
      ensures Valid(ts, solver) && v == old(solver.numVars) && solver.numVars == v + 1
      ensures Unused(v, termToLit, trueLit, base, solver.State())
      ensures forall u: nat :: Unused(u, termToLit, trueLit, base, old(solver.State())) ==> Unused(u, termToLit, trueLit, base, solver.State())
    {
      OneMoreVar(ts, termToLit, trueLit, base, roots, solver.State());
      v := solver.NewVar();
    }

    method GetTrueLit(ghost ts: Arena, solver: Sink) returns (l: Lit)
      requires Valid(ts, solver)
      modifies this`trueLit, solver
      ensures Valid(ts, solver) && trueLit == Some(l) && old(solver.numVars) <= solver.numVars
      ensures forall u: nat :: u < old(solver.numVars) && Unused(u, termToLit, old(trueLit), base, old(solver.State())) ==>
        Unused(u, termToLit, trueLit, base, solver.State())
    {
      if trueLit.Some? {
        return trueLit.value;
      }
      var v := NewVar(ts, solver);
      l := Lit(v, false);
      AddTrueLit(ts, termToLit, base, roots, solver.State(), v);
      solver.AddClause([l]);
      trueLit := Some(l);
    }

    /** What encoding a term promises besides `Valid`: the cache only grows, by terms up to `id`,
        and variables set aside by the caller stay unmentioned. */
    twostate predicate Kept(id: nat, solver: Sink)
      reads this, solver
    {
      && (forall k :: k in old(termToLit) ==> k in termToLit && termToLit[k] == old(termToLit)[k])
      && (forall k :: k in termToLit && k !in old(termToLit) ==> k <= id)
      && old(solver.numVars) <= solver.numVars
      && base == old(base) && roots == old(roots)
      && (forall u: nat :: u < old(solver.numVars) && Unused(u, old(termToLit), old(trueLit), old(base), old(solver.State())) ==>
          Unused(u, termToLit, trueLit, base, solver.State()))
    }

    /** The literal of a Boolean term, creating variables and clauses for what is not cached. */
    method Encode(ts: Arena, id: nat, solver: Sink) returns (l: Lit)
      requires Valid(ts, solver) && id < |ts|
      modifies this`termToLit, this`litToTerm, this`trueLit, solver
      ensures Valid(ts, solver) && id in termToLit && termToLit[id] == l
      ensures Kept(id, solver)
      decreases id, 2
    {
      hide Encoded, Unused;
      EncodedFacts(ts, termToLit, trueLit, base, roots, solver.State());
      if id in termToLit {
        return termToLit[id];
      }
      match ts[id].op {
        case True =>
          l := GetTrueLit(ts, solver);
          AliasTrue(ts, termToLit, trueLit, base, roots, solver.State(), id, l);
        case False =>
          var t := GetTrueLit(ts, solver);
          l := t.Not();
          AliasTrue(ts, termToLit, trueLit, base, roots, solver.State(), id, l);
        case Not =>
          var ls := EncodeArgs(ts, id, solver);
          l := ls[0].Not();
          AliasNot(ts, termToLit, trueLit, base, roots, solver.State(), id, l);
        case Atom =>
          var v := NewVar(ts, solver);
          l := Lit(v, false);
          AddAtom(ts, termToLit, trueLit, base, roots, solver.State(), id, v);
        case _ =>
          l := EncodeConnective(ts, id, solver);
          litToTerm := litToTerm[l := id];
          return;
      }
      UnusedEntry(termToLit, trueLit, base, solver.State(), id, l);
      termToLit := termToLit[id := l];
      litToTerm := litToTerm[l := id];
    }

    /** Encodes the arguments from left to right. */
    method EncodeArgs(ts: Arena, id: nat, solver: Sink) returns (ls: seq<Lit>)
      requires Valid(ts, solver) && id < |ts|
      modifies this`termToLit, this`litToTerm, this`trueLit, solver
      ensures Valid(ts, solver)
      ensures forall a :: a in ts[id].args ==> a in termToLit
      ensures ls == ArgLits(ts, termToLit, id)
      ensures id in termToLit ==> id in old(termToLit)
      ensures Kept(id, solver)
      decreases id, 0
    {
      hide Encoded, Unused;
      EncodedFacts(ts, termToLit, trueLit, base, roots, solver.State());
      ls := [];
      var args := ts[id].args;
      for i := 0 to |args|
        invariant Valid(ts, solver) && Kept(id, solver)
        invariant id in termToLit ==> id in old(termToLit)
        invariant |ls| == i && forall k :: 0 <= k < i ==> args[k] in termToLit && ls[k] == termToLit[args[k]]
      {
        var l := Encode(ts, args[i], solver);
        ls := ls + [l];
      }
      forall a | a in args ensures a in termToLit {
        var k :| 0 <= k < |args| && args[k] == a;
      }
    }

    /** A connective with a gate: its variable is created before its arguments are encoded. */
    method EncodeConnective(ts: Arena, id: nat, solver: Sink) returns (p: Lit)
      requires Valid(ts, solver) && id < |ts| && HasGate(ts[id].op) && id !in termToLit
      modifies this`termToLit, this`litToTerm, this`trueLit, solver
      ensures Valid(ts, solver) && id in termToLit && termToLit[id] == p
      ensures Kept(id, solver)
      decreases id, 1
    {
      hide Encoded, Unused;
      EncodedFacts(ts, termToLit, trueLit, base, roots, solver.State());
      var v := NewVar(ts, solver);
      p := Lit(v, false);
      var ls := EncodeArgs(ts, id, solver);
      ghost var s := solver.State();
      AddConnective(ts, termToLit, trueLit, base, roots, s, id, v);
      GateUnused(ts, termToLit, trueLit, base, roots, s, id, v);
      EmitGate(ts[id].op, p, ls, solver);
      termToLit := termToLit[id := p];
    }

    /** Adds the clauses of a gate one by one. */
    method EmitGate(op: Op, p: Lit, ls: seq<Lit>, solver: Sink)
      requires HasGate(op) && ArityOk(op, |ls|)
      modifies solver`clauses
      ensures solver.clauses == old(solver.clauses) + GateClauses(op, p, ls)
    {
      match op {
        case And =>
          for i := 0 to |ls|
            invariant solver.clauses == old(solver.clauses) + set k | 0 <= k < i :: [p.Not(), ls[k]]
          {
            solver.AddClause([p.Not(), ls[i]]);
          }
          assert (set k | 0 <= k < |ls| :: [p.Not(), ls[k]]) == (set a | a in ls :: [p.Not(), a]);
          solver.AddClause(NotAll(ls) + [p]);
        case Or =>
          for i := 0 to |ls|
            invariant solver.clauses == old(solver.clauses) + set k | 0 <= k < i :: [ls[k].Not(), p]
          {
            solver.AddClause([ls[i].Not(), p]);
          }
          assert (set k | 0 <= k < |ls| :: [ls[k].Not(), p]) == (set a | a in ls :: [a.Not(), p]);
          solver.AddClause(ls + [p.Not()]);
        case Xor =>
          solver.AddClause([p.Not(), ls[0], ls[1]]);
          solver.AddClause([p.Not(), ls[0].Not(), ls[1].Not()]);
          solver.AddClause([p, ls[0].Not(), ls[1]]);
          solver.AddClause([p, ls[0], ls[1].Not()]);
        case Implies =>
          solver.AddClause([p.Not(), ls[0].Not(), ls[1]]);
          solver.AddClause([p, ls[0]]);
          solver.AddClause([p, ls[1].Not()]);
        case Ite =>
          solver.AddClause([ls[0].Not(), ls[1].Not(), p]);
          solver.AddClause([ls[0].Not(), ls[1], p.Not()]);
          solver.AddClause([ls[0], ls[2].Not(), p]);
          solver.AddClause([ls[0], ls[2], p.Not()]);
      }
    }

    /** Asserts a top-level constraint, conjunctions argument by argument. */
    method AssertFormula(ts: Arena, id: nat, solver: Sink)
      requires Valid(ts, solver) && id < |ts|
      modifies this, solver
      ensures Valid(ts, solver) && base == old(base)
      ensures forall env: iset<nat> :: AllTrue(ts, roots, env) <==> AllTrue(ts, old(roots), env) && Eval(ts, id, env)
      decreases id
    {
      hide Encoded, Eval;
      EncodedFacts(ts, termToLit, trueLit, base, roots, solver.State());
      if ts[id].op == And {
        var args := ts[id].args;
        for i := 0 to |args|
          invariant Valid(ts, solver) && base == old(base)
          invariant forall env: iset<nat> :: AllTrue(ts, roots, env) <==>
            AllTrue(ts, old(roots), env) && forall k :: 0 <= k < i ==> Eval(ts, args[k], env)
        {
          AssertFormula(ts, args[i], solver);
        }
        forall env: iset<nat> ensures Eval(ts, id, env) <==> forall k :: 0 <= k < |args| ==> Eval(ts, args[k], env) {
          AndEval(ts, id, env);
        }
        return;
      }
      var l := Encode(ts, id, solver);
      AddRoot(ts, termToLit, trueLit, base, roots, solver.State(), id);
      solver.AddClause([l]);
      roots := roots + {id};
    }
  }

  lemma AndEval(ts: Arena, id: nat, env: iset<nat>)
    requires ArenaOk(ts) && id < |ts| && ts[id].op == And
    ensures Eval(ts, id, env) <==> forall k :: 0 <= k < |ts[id].args| ==> Eval(ts, ts[id].args[k], env)
  {
    var bs := ArgValues(ts, id, env);
    assert forall k :: 0 <= k < |bs| ==> bs[k] == Eval(ts, ts[id].args[k], env);
  }

  lemma EncodedFacts(ts: Arena, cache: Cache, trueLit: Option<Lit>, base: Formula, roots: set<nat>, s: Formula)
    requires Encoded(ts, cache, trueLit, base, roots, s)
    ensures ArenaOk(ts) && CacheOk(ts, cache, s.n) && s.Wf()
  {
  }

  lemma AliasTrue(ts: Arena, cache: Cache, trueLit: Option<Lit>, base: Formula, roots: set<nat>, s: Formula, id: nat, l: Lit)
    requires Encoded(ts, cache, trueLit, base, roots, s) && trueLit.Some?
    requires id < |ts| && id !in cache && (ts[id].op.True? || ts[id].op.False?)
    requires l == if ts[id].op.True? then trueLit.value else trueLit.value.Not()
    ensures Encoded(ts, cache[id := l], trueLit, base, roots, s)
    ensures forall u: nat :: Unused(u, cache, trueLit, base, s) ==> u != l.v
  {
    forall m: Valuation | ModelsAll(m, s.f)
      ensures Holds(m, l) <==> Connective(ts[id].op, Truths(m, ArgLits(ts, cache, id)))
    {
      assert ModelMeans(ts, cache, s.n, trueLit, roots, m);
    }
    AddAlias(ts, cache, trueLit, base, roots, s, id, l);
  }

  lemma AliasNot(ts: Arena, cache: Cache, trueLit: Option<Lit>, base: Formula, roots: set<nat>, s: Formula, id: nat, l: Lit)
    requires Encoded(ts, cache, trueLit, base, roots, s)
    requires id < |ts| && id !in cache && ts[id].op == Not && forall a :: a in ts[id].args ==> a in cache
    requires |ts[id].args| == 1 && l == ArgLits(ts, cache, id)[0].Not()
    ensures Encoded(ts, cache[id := l], trueLit, base, roots, s)
    ensures forall u: nat :: Unused(u, cache, trueLit, base, s) ==> u != l.v
  {
    assert ts[id].args[0] in ts[id].args;
    forall m: Valuation | ModelsAll(m, s.f)
      ensures Holds(m, l) <==> Connective(ts[id].op, Truths(m, ArgLits(ts, cache, id)))
    {
      assert Truths(m, ArgLits(ts, cache, id))[0] == Holds(m, ArgLits(ts, cache, id)[0]);
    }
    AddAlias(ts, cache, trueLit, base, roots, s, id, l);
  }

  lemma UnusedEntry(cache: Cache, trueLit: Option<Lit>, base: Formula, s: Formula, id: nat, l: Lit)
    ensures forall u: nat :: Unused(u, cache, trueLit, base, s) && u != l.v ==> Unused(u, cache[id := l], trueLit, base, s)
  {
  }

  /** Variables set aside other than `v` stay unmentioned when the gate of `v` is added. */
  lemma GateUnused(ts: Arena, cache: Cache, trueLit: Option<Lit>, base: Formula, roots: set<nat>, s: Formula, id: nat, v: nat)
    requires Encoded(ts, cache, trueLit, base, roots, s)
    requires id < |ts| && HasGate(ts[id].op) && forall a :: a in ts[id].args ==> a in cache
    ensures forall u: nat :: Unused(u, cache, trueLit, base, s) && u != v ==>
      Unused(u, cache[id := Lit(v, false)], trueLit, base,
             Formula(s.n, s.f + GateClauses(ts[id].op, Lit(v, false), ArgLits(ts, cache, id))))
  {
    var ls := ArgLits(ts, cache, id);
    forall u: nat | Unused(u, cache, trueLit, base, s) && u != v
      ensures forall c, l :: c in GateClauses(ts[id].op, Lit(v, false), ls) && l in c ==> l.v != u
    {
      forall l | l in ls ensures l.v != u {
        var i :| 0 <= i < |ls| && ls[i] == l;
        assert ts[id].args[i] in ts[id].args;
      }
      GateVarsAvoid(ts[id].op, Lit(v, false), ls, u);
    }
  }

  lemma GateVarsAvoid(op: Op, p: Lit, ls: seq<Lit>, u: nat)
    requires HasGate(op) && ArityOk(op, |ls|) && p.v != u && forall l :: l in ls ==> l.v != u
    ensures forall c, l :: c in GateClauses(op, p, ls) && l in c ==> l.v != u
  {
    forall l | l in NotAll(ls) ensures l.v != u {
      var i :| 0 <= i < |ls| && NotAll(ls)[i] == l;
      assert ls[i] in ls;
    }
    forall i | 0 <= i < |ls| ensures ls[i].v != u { assert ls[i] in ls; }
  }

  lemma StartEncoding(ts: Arena, s: Formula)
    requires ArenaOk(ts) && s.Wf()
    ensures Encoded(ts, map[], None, s, {}, s)
  {
    forall m0: Valuation, env: iset<nat> | ModelsAll(m0, s.f) ensures Realized(ts, map[], s, s, m0, env) {
      assert SameBelow(m0, m0, s.n);
    }
  }

}
