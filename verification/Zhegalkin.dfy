/** Zhegalkin polynomials: sums modulo 2 of products of variables. */
module Zhegalkin {
  import opened Lits
  import BV = BitVectors
  import opened MbaTerms

  /** A product of distinct variables; the empty one is the constant 1. */
  type Monomial = set<nat>

  type Poly = set<Monomial>

  // ---------- values ----------

  ghost predicate Covers(s: iset<nat>, m: Monomial) { forall v :: v in m ==> v in s }

  ghost function Active(p: Poly, s: iset<nat>): set<Monomial> { set m | m in p && Covers(s, m) }

  /** The value where exactly the variables in `s` are 1. */
  ghost predicate Value(p: Poly, s: iset<nat>) { |Active(p, s)| % 2 == 1 }

  ghost function SymDiff(p: Poly, q: Poly): Poly { (p - q) + (q - p) }

  lemma SetCards<T>(a: set<T>, b: set<T>)
    ensures |(a - b) + (b - a)| + 2 * |a * b| == |a| + |b|
  {
    assert (a - b) + a * b == a && (b - a) + a * b == b;
    assert (a - b) * (a * b) == {} && (b - a) * (a * b) == {} && (a - b) * (b - a) == {};
  }

  lemma ActiveSymDiff(p: Poly, q: Poly, s: iset<nat>)
    ensures Active(SymDiff(p, q), s) == (Active(p, s) - Active(q, s)) + (Active(q, s) - Active(p, s))
  {
  }

  lemma OddSum(d: nat, b: nat, x: nat, y: nat)
    requires d + 2 * b == x + y
    ensures (d % 2 == 1) == ((x % 2 == 1) != (y % 2 == 1))
  {
  }

  lemma XorValue(p: Poly, q: Poly, s: iset<nat>)
    ensures Value(SymDiff(p, q), s) == (Value(p, s) != Value(q, s))
  {
    hide Active, SymDiff, Covers;
    ActiveSymDiff(p, q, s);
    var a, b := Active(p, s), Active(q, s);
    SetCards(a, b);
    OddSum(|(a - b) + (b - a)|, |a * b|, |a|, |b|);
  }

  lemma SingleValue(m: Monomial, s: iset<nat>)
    ensures Value({m}, s) == Covers(s, m) && !Value({}, s)
  {
    assert Active({m}, s) == if Covers(s, m) then {m} else {};
    assert Active({}, s) == {};
  }

  lemma AddValue(p: Poly, m: Monomial, s: iset<nat>)
    requires m !in p
    ensures Value(p + {m}, s) == (Value(p, s) != Covers(s, m))
  {
    assert p + {m} == SymDiff(p, {m});
    XorValue(p, {m}, s);
    SingleValue(m, s);
  }

  // ---------- uniqueness ----------

  lemma {:induction false} Smallest(p: Poly) returns (m: Monomial)
    requires p != {}
    ensures m in p && forall k :: k in p ==> |m| <= |k|
    decreases |p|
  {
    m :| m in p;
    if p != {m} {
      var k := Smallest(p - {m});
      if |k| < |m| { m := k; }
    }
  }

  lemma {:induction false} SubsetCard(a: set<nat>, b: set<nat>)
    requires a <= b
    ensures |a| <= |b| && (|a| == |b| ==> a == b)
    decreases |a|
  {
    if a != {} {
      var x :| x in a;
      SubsetCard(a - {x}, b - {x});
      if |a| == |b| { assert a == (a - {x}) + {x} && b == (b - {x}) + {x}; }
    }
  }

  /** A polynomial that is not zero is 1 somewhere: at the variables of a smallest monomial. */
  lemma NonZero(p: Poly) returns (s: iset<nat>)
    requires p != {}
    ensures Value(p, s)
    ensures forall v :: v in s ==> exists m :: m in p && v in m
  {
    var m := Smallest(p);
    s := iset v | v in m;
    forall k | k in p && Covers(s, k) ensures k == m {
      assert k <= m;
      SubsetCard(k, m);
    }
    assert Covers(s, m);
    assert Active(p, s) == {m};
  }

  /** Equal values everywhere, equal monomials. */
  lemma Canonical(p: Poly, q: Poly)
    ensures (forall s :: Value(p, s) == Value(q, s)) <==> p == q
  {
    var d := SymDiff(p, q);
    if d == {} {
      forall m ensures m in p <==> m in q { assert m !in d; }
    } else {
      var s := NonZero(d);
      XorValue(p, q, s);
      assert p != q by { assert forall m :: m in d ==> (m in p) != (m in q); }
    }
  }

  /** All variables are below `n`. */
  ghost predicate VarsBelow(p: Poly, n: nat) { forall m, v :: m in p && v in m ==> v < n }

  /** Values at valuations of the first `n` variables decide. */
  lemma CanonicalBelow(p: Poly, q: Poly, n: nat)
    requires VarsBelow(p, n) && VarsBelow(q, n)
    ensures (forall s: iset<nat> :: (forall v :: v in s ==> v < n) ==> Value(p, s) == Value(q, s)) <==> p == q
  {
    if p != q {
      var d := SymDiff(p, q);
      if d == {} {
        forall m ensures m in p <==> m in q { assert m !in d; }
      } else {
        var s := NonZero(d);
        XorValue(p, q, s);
      }
    }
  }

  // ---------- operations ----------

  /** Product of monomials: x * x is x. */
  method MulMonomials(a: Monomial, b: Monomial) returns (r: Monomial)
    ensures forall s: iset<nat> :: Covers(s, r) <==> Covers(s, a) && Covers(s, b)
    ensures r == a + b
  {
    r := {};
    var todo := a;
    while todo != {}
      invariant todo <= a && r == a - todo
      decreases |todo|
    {
      var v :| v in todo;
      r, todo := r + {v}, todo - {v};
    }
    todo := b;
    while todo != {}
      invariant todo <= b && r == a + (b - todo)
      decreases |todo|
    {
      var v :| v in todo;
      r, todo := r + {v}, todo - {v};
    }
  }

  /** Sum: a monomial of the other cancels one that is there and is added otherwise. */
  method XorPolys(a: Poly, b: Poly) returns (r: Poly)
    ensures r == SymDiff(a, b)
    ensures forall s: iset<nat> :: Value(r, s) == (Value(a, s) != Value(b, s))
  {
    r := a;
    var todo := b;
    while todo != {}
      invariant todo <= b && r == SymDiff(a, b - todo)
      decreases |todo|
    {
      var m :| m in todo;
      if m in r { r := r - {m}; } else { r := r + {m}; }
      todo := todo - {m};
    }
    assert b - todo == b;
    forall s: iset<nat> ensures Value(r, s) == (Value(a, s) != Value(b, s)) { XorValue(a, b, s); }
  }

  method NotPoly(a: Poly) returns (r: Poly)
    ensures forall s: iset<nat> :: Value(r, s) == !Value(a, s)
    ensures forall n: nat :: VarsBelow(a, n) ==> VarsBelow(r, n)
  {
    r := XorPolys(a, {{}});
    forall s: iset<nat> ensures Value(r, s) == !Value(a, s) { SingleValue({}, s); }
  }

  /** Product: every monomial with every monomial. */
  method AndPolys(a: Poly, b: Poly) returns (r: Poly)
    ensures forall s: iset<nat> :: Value(r, s) == (Value(a, s) && Value(b, s))
    ensures forall n: nat :: VarsBelow(a, n) && VarsBelow(b, n) ==> VarsBelow(r, n)
  {
    r := {};
    var todo := a;
    forall s: iset<nat> ensures !Value({}, s) { SingleValue({}, s); }
    assert a - todo == {};
    while todo != {}
      invariant todo <= a
      invariant forall s: iset<nat> :: Value(r, s) == (Value(a - todo, s) && Value(b, s))
      invariant forall n: nat :: VarsBelow(a, n) && VarsBelow(b, n) ==> VarsBelow(r, n)
      decreases |todo|
    {
      var m :| m in todo;
      var before := r;
      r := AddProducts(r, m, b);
      forall s: iset<nat> ensures Value(r, s) == (Value(a - (todo - {m}), s) && Value(b, s)) {
        assert a - (todo - {m}) == (a - todo) + {m};
        AddValue(a - todo, m, s);
      }
      forall n: nat | VarsBelow(a, n) && VarsBelow(b, n) ensures VarsBelow(r, n) {
        assert forall v :: v in m ==> v < n;
      }
      todo := todo - {m};
    }
    assert a - todo == a;
  }

  /** Adds the products of one monomial with all of `b`. */
  method AddProducts(acc: Poly, m: Monomial, b: Poly) returns (r: Poly)
    ensures forall s: iset<nat> :: Value(r, s) == (Value(acc, s) != (Covers(s, m) && Value(b, s)))
    ensures forall n: nat :: VarsBelow(acc, n) && VarsBelow(b, n) && (forall v :: v in m ==> v < n) ==> VarsBelow(r, n)
  {
    r := acc;
    var todo := b;
    forall s: iset<nat> ensures !Value({}, s) { SingleValue({}, s); }
    assert b - todo == {};
    while todo != {}
      invariant todo <= b
      invariant forall s: iset<nat> :: Value(r, s) == (Value(acc, s) != (Covers(s, m) && Value(b - todo, s)))
      invariant forall n: nat :: VarsBelow(acc, n) && VarsBelow(b, n) && (forall v :: v in m ==> v < n) ==> VarsBelow(r, n)
      decreases |todo|
    {
      var k :| k in todo;
      var prod := MulMonomials(m, k);
      ghost var before := r;
      r := XorPolys(r, {prod});
      forall s: iset<nat> ensures Value(r, s) == (Value(acc, s) != (Covers(s, m) && Value(b - (todo - {k}), s))) {
        SingleValue(prod, s);
        assert b - (todo - {k}) == (b - todo) + {k};
        AddValue(b - todo, k, s);
      }
      todo := todo - {k};
    }
    assert b - todo == b;
  }

  method OrPolys(a: Poly, b: Poly) returns (r: Poly)
    ensures forall s: iset<nat> :: Value(r, s) == (Value(a, s) || Value(b, s))
    ensures forall n: nat :: VarsBelow(a, n) && VarsBelow(b, n) ==> VarsBelow(r, n)
  {
    var x := XorPolys(a, b);
    var y := AndPolys(a, b);
    r := XorPolys(x, y);
  }

  // ---------- the variable map ----------

  datatype VarMap = VarMap(index: map<Term, nat>, terms: seq<Term>)

  ghost predicate MapOk(m: VarMap) {
    && (forall k :: 0 <= k < |m.terms| ==> m.terms[k] in m.index && m.index[m.terms[k]] == k)
    && (forall t :: t in m.index ==> m.index[t] < |m.terms| && m.terms[m.index[t]] == t)
  }

  ghost predicate Extends(m: VarMap, m': VarMap) { m.terms <= m'.terms }

  /** New variables are variables of the sort. */
  ghost predicate NewOf(m: VarMap, m': VarMap, s: Sort) {
    forall k :: |m.terms| <= k < |m'.terms| ==> m'.terms[k].op.Var? && m'.terms[k].sort == s && WellSorted(m'.terms[k])
  }

  ghost function Assigned(m: VarMap, rho: Term -> bool): iset<nat> { iset k: nat | k < |m.terms| && rho(m.terms[k]) }

  lemma ValueExtends(p: Poly, m: VarMap, m': VarMap, rho: Term -> bool)
    requires VarsBelow(p, |m.terms|) && Extends(m, m')
    ensures Value(p, Assigned(m, rho)) == Value(p, Assigned(m', rho))
  {
    assert Active(p, Assigned(m, rho)) == Active(p, Assigned(m', rho)) by {
      forall k | k in p ensures Covers(Assigned(m, rho), k) == Covers(Assigned(m', rho), k) {
        forall v | v in k ensures v in Assigned(m, rho) <==> v in Assigned(m', rho) {}
      }
    }
  }

  /** The polynomial has the truth values of the term. */
  ghost predicate Represents(p: Poly, t: Term, m: VarMap)
    requires Supported(t)
  {
    VarsBelow(p, |m.terms|) && forall rho: Term -> bool :: Value(p, Assigned(m, rho)) == Truth(t, rho)
  }

  lemma RepresentsExtends(p: Poly, t: Term, m: VarMap, m': VarMap)
    requires Supported(t) && Represents(p, t, m) && Extends(m, m')
    ensures Represents(p, t, m')
  {
    forall rho: Term -> bool ensures Value(p, Assigned(m', rho)) == Truth(t, rho) { ValueExtends(p, m, m', rho); }
  }

  /** Every valuation of the variables is that of some truth assignment to terms. */
  lemma AssignmentFor(m: VarMap, s: iset<nat>) returns (rho: Term -> bool)
    requires MapOk(m) && forall v :: v in s ==> v < |m.terms|
    ensures Assigned(m, rho) == s
  {
    rho := t => t in m.index && m.index[t] in s;
  }

  /** The same truth value under every assignment. */
  ghost predicate Equivalent(t: Term, u: Term)
    requires Supported(t) && Supported(u)
  {
    forall rho: Term -> bool :: Truth(t, rho) == Truth(u, rho)
  }

  lemma EqualIfEquivalent(p: Poly, t: Term, q: Poly, u: Term, m: VarMap)
    requires MapOk(m) && Supported(t) && Supported(u) && Represents(p, t, m) && Represents(q, u, m) && Equivalent(t, u)
    ensures p == q
  {
    forall s: iset<nat> | (forall v :: v in s ==> v < |m.terms|) ensures Value(p, s) == Value(q, s) {
      var rho := AssignmentFor(m, s);
      assert Truth(t, rho) == Truth(u, rho);
    }
    CanonicalBelow(p, q, |m.terms|);
  }

  /** Over a shared variable map, terms are equivalent exactly when their polynomials are equal. */
  lemma EqualPolysIffEquivalent(p: Poly, t: Term, q: Poly, u: Term, m: VarMap)
    requires MapOk(m) && Supported(t) && Supported(u) && Represents(p, t, m) && Represents(q, u, m)
    ensures p == q <==> Equivalent(t, u)
  {
    if Equivalent(t, u) { EqualIfEquivalent(p, t, q, u, m); }
    if p == q {
      forall rho: Term -> bool ensures Truth(t, rho) == Truth(u, rho) {
        assert Value(p, Assigned(m, rho)) == Truth(t, rho);
        assert Value(q, Assigned(m, rho)) == Truth(u, rho);
      }
    }
  }

  /** Builds the polynomial of a term, numbering variables as they are met. Of a conjunction or disjunction
      only the first two arguments are read. */
  method FromTerm(t: Term, m: VarMap) returns (r: Option<Poly>, m': VarMap)
    requires WellSorted(t) && MapOk(m)
    ensures MapOk(m') && Extends(m, m')
    ensures r.Some? <==> Supported(FirstTwo(t))
    ensures r.Some? ==> Represents(r.value, FirstTwo(t), m')
    ensures NewOf(m, m', t.sort)
    decreases t
  {
    hide Truth, Represents, MapOk, WellSorted, Value, VarsBelow;
    m' := m;
    ArgSorts(t);
    LeafIsRead(t);
    match t.op {
      case True =>
        ConstantRepresents({{}}, t, m);
        r := Some({{}});
      case False =>
        ConstantRepresents({}, t, m);
        r := Some({});
      case Var(_) =>
        NewVariable(t, m);
        if t !in m.index { m' := VarMap(m.index[t := |m.terms|], m.terms + [t]); }
        r := Some({{m'.index[t]}});
      case BvConst(value, _) =>
        ConstantRepresents(if value == 0 then {} else {{}}, t, m);
        r := Some(if value == 0 then {} else {{}});
      case Not => r, m' := FromNegation(t, m);
      case BvNot => r, m' := FromNegation(t, m);
      case Xor => r, m' := FromPair(t, m);
      case BvXor => r, m' := FromPair(t, m);
      case And => r, m' := FromPair(t, m);
      case BvAnd => r, m' := FromPair(t, m);
      case Or => r, m' := FromPair(t, m);
      case BvOr => r, m' := FromPair(t, m);
      case _ => r := None;
    }
  }

  method FromNegation(t: Term, m: VarMap) returns (r: Option<Poly>, m': VarMap)
    requires WellSorted(t) && MapOk(m) && (t.op.Not? || t.op.BvNot?)
    ensures MapOk(m') && Extends(m, m')
    ensures r.Some? <==> Supported(FirstTwo(t))
    ensures r.Some? ==> Represents(r.value, FirstTwo(t), m')
    ensures NewOf(m, m', t.sort)
    decreases t, 0
  {
    hide MapOk, WellSorted, Value, VarsBelow;
    ArgSorts(t);
    ReadArgs(t);
    r, m' := FromTerm(t.args[0], m);
    if r.None? { return; }
    var inner := r.value;
    var p := NotPoly(inner);
    assert VarsBelow(p, |m'.terms|);
    forall rho: Term -> bool ensures Value(p, Assigned(m', rho)) == Truth(FirstTwo(t), rho) {
      assert Value(inner, Assigned(m', rho)) == Truth(FirstTwo(t.args[0]), rho);
    }
    r := Some(p);
  }

  method FromPair(t: Term, m: VarMap) returns (r: Option<Poly>, m': VarMap)
    requires WellSorted(t) && MapOk(m)
    requires t.op.Xor? || t.op.BvXor? || t.op.And? || t.op.BvAnd? || t.op.Or? || t.op.BvOr?
    ensures MapOk(m') && Extends(m, m')
    ensures r.Some? <==> Supported(FirstTwo(t))
    ensures r.Some? ==> Represents(r.value, FirstTwo(t), m')
    ensures NewOf(m, m', t.sort)
    decreases t, 0
  {
    hide MapOk, WellSorted, Value, VarsBelow;
    ArgSorts(t);
    ReadArgs(t);
    r, m' := FromTerm(t.args[0], m);
    if r.None? { return; }
    var a := r.value;
    var m1 := m';
    r, m' := FromTerm(t.args[1], m1);
    if r.None? { return; }
    var b := r.value;
    RepresentsExtends(a, FirstTwo(t.args[0]), m1, m');
    var p;
    if t.op.Xor? || t.op.BvXor? {
      p := XorPolys(a, b);
      SymDiffBelow(a, b, |m'.terms|);
    } else if t.op.And? || t.op.BvAnd? {
      p := AndPolys(a, b);
    } else {
      p := OrPolys(a, b);
    }
    assert VarsBelow(p, |m'.terms|);
    forall rho: Term -> bool ensures Value(p, Assigned(m', rho)) == Truth(FirstTwo(t), rho) {
      assert Value(a, Assigned(m', rho)) == Truth(FirstTwo(t.args[0]), rho);
      assert Value(b, Assigned(m', rho)) == Truth(FirstTwo(t.args[1]), rho);
      PairTruth(FirstTwo(t), rho);
    }
    r := Some(p);
  }

  lemma LeafIsRead(t: Term)
    ensures t.args == [] ==> FirstTwo(t) == t
    ensures WellSorted(t) && (t.op.True? || t.op.False? || t.op.Var? || t.op.BvConst?) ==> FirstTwo(t) == t
    ensures FirstTwo(t).op == t.op && FirstTwo(t).sort == t.sort
  {
  }

  lemma ReadArgs(t: Term)
    requires t.op.Not? || t.op.BvNot? ==> |t.args| == 1
    requires !t.op.Not? && !t.op.BvNot? ==> |t.args| >= 2 && (!Junction(t.op) ==> |t.args| == 2)
    ensures FirstTwo(t).op == t.op && FirstTwo(t).args[0] == FirstTwo(t.args[0])
    ensures |FirstTwo(t).args| == if t.op.Not? || t.op.BvNot? then 1 else 2
    ensures !t.op.Not? && !t.op.BvNot? ==> FirstTwo(t).args[1] == FirstTwo(t.args[1])
  {
  }

  lemma PairTruth(t: Term, rho: Term -> bool)
    requires Supported(t) && |t.args| == 2 && (t.op.Xor? || t.op.BvXor? || t.op.And? || t.op.BvAnd? || t.op.Or? || t.op.BvOr?)
    ensures Supported(t.args[0]) && Supported(t.args[1])
    ensures var a, b := Truth(t.args[0], rho), Truth(t.args[1], rho);
      Truth(t, rho) == if t.op.Xor? || t.op.BvXor? then a != b else if t.op.And? || t.op.BvAnd? then a && b else a || b
  {
  }

  lemma SymDiffBelow(a: Poly, b: Poly, n: nat)
    requires VarsBelow(a, n) && VarsBelow(b, n)
    ensures VarsBelow(SymDiff(a, b), n)
  {
  }

  lemma ConstantRepresents(p: Poly, t: Term, m: VarMap)
    requires t.op.True? || t.op.False? || t.op.BvConst?
    requires p == if t.op.False? || (t.op.BvConst? && t.op.value == 0) then {} else {{}}
    ensures Represents(p, t, m)
  {
    forall s: iset<nat> ensures Value(p, s) == (p != {}) { SingleValue({}, s); }
  }

  lemma NewVariable(t: Term, m: VarMap)
    requires MapOk(m) && t.op.Var? && WellSorted(t)
    ensures var m' := if t in m.index then m else VarMap(m.index[t := |m.terms|], m.terms + [t]);
            MapOk(m') && Extends(m, m') && NewOf(m, m', t.sort) && t in m'.index && Represents({{m'.index[t]}}, t, m')
  {
    var m' := if t in m.index then m else VarMap(m.index[t := |m.terms|], m.terms + [t]);
    var k := m'.index[t];
    forall rho: Term -> bool ensures Value({{k}}, Assigned(m', rho)) == Truth(t, rho) {
      SingleValue({k}, Assigned(m', rho));
      assert m'.terms[k] == t;
    }
  }

  // ---------- back to a term ----------

  /** The variables are words of one width. */
  ghost predicate WordVars(m: VarMap, width: nat) {
    forall k :: 0 <= k < |m.terms| ==> m.terms[k].op.Var? && m.terms[k].sort == BitVec(width) && WellSorted(m.terms[k])
  }

  /** The term has the truth values of the polynomial; its bits are those of the polynomial, except
      that a constant 1 only reaches the lowest bit. */
  ghost predicate TermFor(t: Term, p: Poly, m: VarMap, width: nat) {
    && WellSorted(t) && t.sort == BitVec(width) && Supported(t)
    && (width > 0 ==> forall rho: Term -> bool :: Truth(t, rho) == Value(p, Assigned(m, rho)))
    && (forall i, k :: Fits(i) && 0 <= k < width ==> BitOf(t, i, k) == (Value(p, Assigned(m, BitView(i, k))) != ({} in p && k > 0)))
  }

  lemma ConstantTerm(value: nat, m: VarMap, width: nat)
    requires value <= 1
    ensures TermFor(BvConstant(value, width), if value == 0 then {} else {{}}, m, width)
  {
    var t := BvConstant(value, width);
    var p: Poly := if value == 0 then {} else {{}};
    forall s: iset<nat> ensures Value(p, s) == (p != {}) { SingleValue({}, s); }
    SmallConstant(value, width);
    forall i, k | Fits(i) && 0 <= k < width ensures BitOf(t, i, k) == (Value(p, Assigned(m, BitView(i, k))) != ({} in p && k > 0)) {
      ConstantBit(t, i, k);
      BitsOfConstant(value, width);
    }
  }

  lemma SmallConstant(value: nat, width: nat)
    requires value <= 1
    ensures value % BV.Pow2(width) < BV.Pow2(width)
    ensures width > 0 ==> value % BV.Pow2(width) == value && value < BV.Pow2(width)
  {
    ModBelow(value, BV.Pow2(width));
    if width > 0 { assert BV.Pow2(width) == 2 * BV.Pow2(width - 1); }
  }

  lemma ModBelow(x: nat, m: nat)
    requires m > 0
    ensures x % m < m && (x < m ==> x % m == x)
  {
    if x < m { BV.ModUnique(x, m, 0, x); }
  }

  lemma VariableTerm(v: nat, m: VarMap, width: nat)
    requires v < |m.terms| && WordVars(m, width)
    ensures TermFor(m.terms[v], {{v}}, m, width)
  {
    forall s: iset<nat> ensures Value({{v}}, s) == (v in s) { SingleValue({v}, s); }
    var t := m.terms[v];
    forall i, k | Fits(i) && 0 <= k < width ensures BitOf(t, i, k) == Value({{v}}, Assigned(m, BitView(i, k))) {
      assert v in Assigned(m, BitView(i, k)) <==> BitOf(t, i, k);
    }
  }

  /** One more variable in a product. */
  lemma ProductTerm(t: Term, mono: Monomial, v: nat, m: VarMap, width: nat)
    requires mono != {} && TermFor(t, {mono}, m, width) && v < |m.terms| && WordVars(m, width)
    ensures BvBinop(BvAnd, t, m.terms[v]) == Some(Term(BvAnd, [t, m.terms[v]], BitVec(width)))
    ensures TermFor(Term(BvAnd, [t, m.terms[v]], BitVec(width)), {mono + {v}}, m, width)
  {
    hide BitOf;
    var x := m.terms[v];
    var r := Term(BvAnd, [t, x], BitVec(width));
    VariableTerm(v, m, width);
    BinopSorted(BvAnd, t, x, BitVec(width));
    forall s: iset<nat> ensures Value({mono + {v}}, s) == (Value({mono}, s) && Value({{v}}, s)) {
      SingleValue(mono + {v}, s);
      SingleValue(mono, s);
      SingleValue({v}, s);
    }
    forall i, k | Fits(i) && 0 <= k < width ensures BitOf(r, i, k) == Value({mono + {v}}, Assigned(m, BitView(i, k))) {
      BitBinary(BvAnd, t, x, BitVec(width), i, k);
    }
  }

  /** One more summand. */
  lemma SumTerm(t: Term, p: Poly, u: Term, mono: Monomial, m: VarMap, width: nat)
    requires TermFor(t, p, m, width) && TermFor(u, {mono}, m, width) && mono !in p
    ensures BvBinop(BvXor, t, u) == Some(Term(BvXor, [t, u], BitVec(width)))
    ensures TermFor(Term(BvXor, [t, u], BitVec(width)), p + {mono}, m, width)
  {
    hide BitOf;
    var r := Term(BvXor, [t, u], BitVec(width));
    BinopSorted(BvXor, t, u, BitVec(width));
    forall s: iset<nat> ensures Value(p + {mono}, s) == (Value(p, s) != Value({mono}, s)) {
      AddValue(p, mono, s);
      SingleValue(mono, s);
    }
    forall i, k | Fits(i) && 0 <= k < width
      ensures BitOf(r, i, k) == (Value(p + {mono}, Assigned(m, BitView(i, k))) != ({} in p + {mono} && k > 0))
    {
      BitBinary(BvXor, t, u, BitVec(width), i, k);
    }
  }

  /** The variables are Boolean. */
  ghost predicate BoolVars(m: VarMap) {
    forall k :: 0 <= k < |m.terms| ==> m.terms[k].op.Var? && m.terms[k].sort == Bool
  }

  /** The term is Boolean and has the truth values of the polynomial. */
  ghost predicate BoolTermFor(t: Term, p: Poly, m: VarMap) {
    t.sort == Bool && Supported(t) && forall rho: Term -> bool :: Truth(t, rho) == Value(p, Assigned(m, rho))
  }

  /** Sums over Boolean variables: the constant 1 is a word, so it is either all there is or left out. */
  ghost predicate BoolSum(t: Term, p: Poly, m: VarMap) {
    if {} in p then t.sort != Bool || BoolTermFor(t, p - {{}}, m) else BoolTermFor(t, p, m)
  }

  lemma BoolVariable(v: nat, m: VarMap)
    requires v < |m.terms| && BoolVars(m)
    ensures BoolTermFor(m.terms[v], {{v}}, m)
  {
    forall s: iset<nat> ensures Value({{v}}, s) == (v in s) { SingleValue({v}, s); }
  }

  lemma BoolProduct(t: Term, mono: Monomial, v: nat, m: VarMap)
    requires mono != {} && BoolTermFor(t, {mono}, m) && v < |m.terms| && BoolVars(m)
    ensures BvBinop(BvAnd, t, m.terms[v]) == Some(Term(BvAnd, [t, m.terms[v]], Bool))
    ensures BoolTermFor(Term(BvAnd, [t, m.terms[v]], Bool), {mono + {v}}, m)
  {
    var r := Term(BvAnd, [t, m.terms[v]], Bool);
    BoolVariable(v, m);
    forall rho: Term -> bool ensures Truth(r, rho) == Value({mono + {v}}, Assigned(m, rho)) {
      var s := Assigned(m, rho);
      SingleValue(mono + {v}, s);
      SingleValue(mono, s);
      SingleValue({v}, s);
    }
  }

  lemma BoolXor(t: Term, p: Poly, u: Term, mono: Monomial, m: VarMap)
    requires BoolTermFor(t, p, m) && BoolTermFor(u, {mono}, m) && mono !in p
    ensures BvBinop(BvXor, t, u) == Some(Term(BvXor, [t, u], Bool))
    ensures BoolTermFor(Term(BvXor, [t, u], Bool), p + {mono}, m)
  {
    var r := Term(BvXor, [t, u], Bool);
    forall rho: Term -> bool ensures Truth(r, rho) == Value(p + {mono}, Assigned(m, rho)) {
      AddValue(p, mono, Assigned(m, rho));
      SingleValue(mono, Assigned(m, rho));
    }
  }

  /** One more summand: a word and a Boolean have no sum, and the new one is dropped. */
  lemma BoolSumStep(t: Term, p: Poly, u: Term, mono: Monomial, m: VarMap)
    requires p != {} && BoolSum(t, p, m) && mono !in p
    requires if mono == {} then u.sort != Bool else BoolTermFor(u, {mono}, m)
    ensures BoolSum(if BvBinop(BvXor, t, u).Some? then BvBinop(BvXor, t, u).value else t, p + {mono}, m)
  {
    hide Truth, Value;
    if mono == {} {
      assert p + {mono} - {{}} == p;
    } else if t.sort == Bool {
      var rest := p - {{}};
      assert {} !in p ==> rest == p;
      BoolXor(t, rest, u, mono, m);
      assert p + {mono} - {{}} == rest + {mono};
      assert {} !in p ==> p + {mono} == rest + {mono};
    }
  }

  /** The product of the variables of a monomial; the constant 1 for the empty one. */
  method MonomialTerm(mono: Monomial, m: VarMap, width: nat) returns (t: Term)
    requires forall v :: v in mono ==> v < |m.terms|
    ensures MonomialFor(t, mono, m, width)
  {
    hide TermFor, WordVars, BoolVars, BoolTermFor;
    if mono == {} {
      ConstantTerm(1, m, width);
      t := BvConstant(1, width);
      return;
    }
    var v :| v in mono;
    t := m.terms[v];
    var todo := mono - {v};
    if WordVars(m, width) { VariableTerm(v, m, width); }
    if BoolVars(m) { BoolVariable(v, m); }
    assert mono - todo == {v};
    while todo != {}
      invariant todo < mono
      invariant WordVars(m, width) ==> TermFor(t, {mono - todo}, m, width)
      invariant BoolVars(m) ==> BoolTermFor(t, {mono - todo}, m)
      decreases |todo|
    {
      var next :| next in todo;
      assert mono - (todo - {next}) == (mono - todo) + {next};
      if WordVars(m, width) { ProductTerm(t, mono - todo, next, m, width); }
      if BoolVars(m) { BoolProduct(t, mono - todo, next, m); }
      var product := BvBinop(BvAnd, t, m.terms[next]);
      if product.Some? { t := product.value; }
      todo := todo - {next};
    }
    assert mono - todo == mono;
  }

  lemma BoolSumStart(t: Term, mono: Monomial, m: VarMap)
    requires if mono == {} then t.sort != Bool else BoolTermFor(t, {mono}, m)
    ensures BoolSum(t, {mono}, m)
  {
  }

  /** What the sum of some monomials is, over words or over Booleans. */
  ghost predicate SumFor(t: Term, p: Poly, m: VarMap, width: nat) {
    (WordVars(m, width) ==> TermFor(t, p, m, width)) && (BoolVars(m) ==> BoolSum(t, p, m))
  }

  ghost predicate MonomialFor(t: Term, mono: Monomial, m: VarMap, width: nat) {
    && (WordVars(m, width) ==> TermFor(t, {mono}, m, width))
    && (BoolVars(m) ==> if mono == {} then t.sort != Bool else BoolTermFor(t, {mono}, m))
  }

  function XorOrFirst(t: Term, u: Term): Term {
    var sum := BvBinop(BvXor, t, u);
    if sum.Some? then sum.value else t
  }

  lemma SumStart(t: Term, mono: Monomial, m: VarMap, width: nat)
    requires MonomialFor(t, mono, m, width)
    ensures SumFor(t, {mono}, m, width)
  {
    hide TermFor, WordVars, BoolVars, BoolTermFor, BoolSum;
    if BoolVars(m) { BoolSumStart(t, mono, m); }
  }

  lemma SumStep(t: Term, p: Poly, u: Term, mono: Monomial, m: VarMap, width: nat)
    requires p != {} && mono !in p && SumFor(t, p, m, width) && MonomialFor(u, mono, m, width)
    ensures SumFor(XorOrFirst(t, u), p + {mono}, m, width)
  {
    hide TermFor, WordVars, BoolVars, BoolTermFor, BoolSum;
    if WordVars(m, width) { SumTerm(t, p, u, mono, m, width); }
    if BoolVars(m) { BoolSumStep(t, p, u, mono, m); }
  }

  /** The sum of the products. */
  method ToTerm(p: Poly, m: VarMap, width: nat) returns (t: Term)
    requires VarsBelow(p, |m.terms|)
    ensures WordVars(m, width) ==> TermFor(t, p, m, width)
    ensures BoolVars(m) ==> if p == {} then t.sort != Bool else BoolSum(t, p, m)
  {
    hide TermFor, WordVars, BoolVars, BoolTermFor, BoolSum;
    if p == {} {
      ConstantTerm(0, m, width);
      t := BvConstant(0, width);
      return;
    }
    t := SumMonomials(p, m, width);
  }

  method SumMonomials(p: Poly, m: VarMap, width: nat) returns (t: Term)
    requires p != {} && VarsBelow(p, |m.terms|)
    ensures SumFor(t, p, m, width)
  {
    hide SumFor, MonomialFor, XorOrFirst;
    var first :| first in p;
    t := MonomialTerm(first, m, width);
    SumStart(t, first, m, width);
    var todo := p - {first};
    assert p - todo == {first};
    while todo != {}
      invariant todo < p && SumFor(t, p - todo, m, width)
      decreases |todo|
    {
      var next :| next in todo;
      var u := MonomialTerm(next, m, width);
      assert p - (todo - {next}) == (p - todo) + {next};
      SumStep(t, p - todo, u, next, m, width);
      t := XorOrFirst(t, u);
      todo := todo - {next};
    }
    assert p - todo == p;
  }

  /** Reading the term back gives the polynomial again. */
  method RoundTrip(p: Poly, m: VarMap, width: nat) returns (q: Option<Poly>)
    requires MapOk(m) && WordVars(m, width) && VarsBelow(p, |m.terms|) && width > 0
    ensures q == Some(p)
  {
    hide BitOf, Truth, Value;
    var t := ToTerm(p, m, width);
    SupportedIsRead(t);
    WordIsRead(t);
    TwoOnlyIsRead(t);
    var m';
    q, m' := FromTerm(t, m);
    assert Represents(p, t, m);
    RepresentsExtends(p, t, m, m');
    EqualIfEquivalent(p, t, q.value, t, m');
  }

  // ---------- simplification ----------

  /** Over variables that are met in the term only, the constant monomial is there exactly when the
      term is true with all variables false. */
  lemma ConstantMonomial(p: Poly, t: Term, m: VarMap)
    requires Supported(t) && Represents(p, t, m)
    ensures {} in p <==> Truth(t, AllFalse())
  {
    assert Assigned(m, AllFalse()) == iset{};
    assert Value(p, iset{}) == Truth(t, AllFalse());
    assert Active(p, iset{}) == if {} in p then {{}} else {} by {
      forall k: Monomial | k != {} ensures !Covers(iset{}, k) {
        var v :| v in k;
        assert v !in iset{};
      }
    }
  }

  /** What the canonical term means, for words of the width. */
  ghost predicate Simplified(t: Term, u: Term)
    requires WellSorted(t) && t.sort.BitVec? && Supported(t)
  {
    && WellSorted(u) && u.sort == t.sort && Supported(u)
    && (t.sort.w > 0 ==> Equivalent(u, t))
    && forall i, k :: Fits(i) && 0 <= k < t.sort.w ==>
        BitOf(u, i, k) == (Truth(t, BitView(i, k)) != (Truth(t, AllFalse()) && k > 0))
  }

  /** A Boolean term with the truth values of another. */
  ghost predicate KeepsTruth(u: Term, t: Term)
    requires Supported(t)
  {
    u.sort == Bool && Supported(u) && Equivalent(u, t)
  }

  ghost predicate Satisfiable(t: Term)
    requires Supported(t)
  {
    exists rho: Term -> bool :: Truth(t, rho)
  }

  /** A polynomial is empty exactly when its term is never true. */
  lemma EmptyIffUnsatisfiable(p: Poly, t: Term, m: VarMap)
    requires MapOk(m) && Supported(t) && Represents(p, t, m)
    ensures p == {} <==> !Satisfiable(t)
  {
    var no := Term(Op.False, [], Bool);
    ConstantRepresents({}, no, m);
    EqualPolysIffEquivalent(p, t, {}, no, m);
  }

  lemma BoolResult(p: Poly, t: Term, m: VarMap, c: Term)
    requires MapOk(m) && Supported(t) && Represents(p, t, m)
    requires if p == {} then c.sort != Bool else BoolSum(c, p, m)
    ensures KeepsTruth(c, t) <==> !Truth(t, AllFalse()) && Satisfiable(t)
  {
    hide Truth, Value, MapOk;
    ConstantMonomial(p, t, m);
    EmptyIffUnsatisfiable(p, t, m);
    if {} in p && c.sort == Bool {
      assert Assigned(m, AllFalse()) == iset{};
      assert Active(p - {{}}, iset{}) == {} by { OnlyConstant(p - {{}}); }
      assert !Truth(c, AllFalse()) by { NoActive(p - {{}}, iset{}); }
    }
  }

  lemma NoActive(p: Poly, s: iset<nat>)
    requires Active(p, s) == {}
    ensures !Value(p, s)
  {
  }

  lemma OnlyConstant(p: Poly)
    requires {} !in p
    ensures Active(p, iset{}) == {}
  {
    forall k: Monomial | k != {} ensures !Covers(iset{}, k) {
      var v :| v in k;
      assert v !in iset{};
    }
  }

  /** The canonical form of a term, unless it is that already. For a Boolean term it is Boolean with the
      truth of what is read of the term exactly when that is false with all variables false and true
      somewhere: constants are made as words of one bit, and their sum with a Boolean is dropped. */
  method Simplify(t: Term) returns (u: Option<Term>)
    requires WellSorted(t)
    ensures u.Some? ==> Supported(FirstTwo(t))
    ensures u.Some? && t.sort.BitVec? ==> Supported(t) && Simplified(t, u.value)
    ensures u.None? && Supported(t) && t.sort.BitVec? ==> Simplified(t, t)
    ensures Supported(FirstTwo(t)) && t.sort.Bool? ==>
      (KeepsTruth(if u.Some? then u.value else t, FirstTwo(t)) <==> !Truth(FirstTwo(t), AllFalse()) && Satisfiable(FirstTwo(t)))
    ensures TwoOnly(t) ==> FirstTwo(t) == t
  {
    hide Truth, Value, BitOf, WellSorted, KeepsTruth, Satisfiable, BoolSum, FirstTwo, TwoOnly, Supported;
    if TwoOnly(t) { TwoOnlyIsRead(t); }
    if Supported(t) { SupportedIsRead(t); }
    if t.sort.BitVec? && Supported(FirstTwo(t)) {
      WordIsRead(t);
      TwoOnlyIsRead(t);
    }
    var p, m := FromTerm(t, VarMap(map[], []));
    if p.None? { return None; }
    var width;
    match t.sort {
      case BitVec(w) => width := w;
      case Bool => width := 1;
      case OtherSort => return None;
    }
    var canonical := ToTerm(p.value, m, width);
    if t.sort.BitVec? {
      assert WordVars(m, width);
      ConstantMonomial(p.value, t, m);
      forall i, k | Fits(i) && 0 <= k < width
        ensures BitOf(canonical, i, k) == (Truth(t, BitView(i, k)) != (Truth(t, AllFalse()) && k > 0))
      {
        assert Value(p.value, Assigned(m, BitView(i, k))) == Truth(t, BitView(i, k));
      }
    }
    if t.sort.Bool? { BoolResult(p.value, FirstTwo(t), m, canonical); }
    if canonical != t { return Some(canonical); } else { return None; }
  }

  lemma ArgSupported(t: Term, k: nat)
    requires Supported(t) && !t.op.True? && !t.op.False? && !t.op.Var? && !t.op.BvConst? && k < |t.args|
    ensures Supported(t.args[k])
  {
  }

  lemma {:induction false} SupportedIsRead(t: Term)
    requires Supported(t)
    ensures Supported(FirstTwo(t))
    decreases t
  {
    var u := FirstTwo(t);
    if !t.op.True? && !t.op.False? && !t.op.Var? && !t.op.BvConst? {
      forall k | 0 <= k < |u.args| ensures Supported(u.args[k]) {
        assert u.args[k] == FirstTwo(t.args[k]);
        ArgSupported(t, k);
        SupportedIsRead(t.args[k]);
      }
    }
  }

  lemma ThreeRead(t: Term, x: Term, y: Term, z: Term)
    requires t == Term(And, [x, y, z], Bool) && x.op.Var? && y.op.Var? && z.op.Var? && x.args == [] && y.args == [] && z.args == []
    ensures Supported(t) && FirstTwo(t) == Term(And, [x, y], Bool) && Supported(FirstTwo(t))
    ensures forall rho: Term -> bool :: Truth(t, rho) == (rho(x) && rho(y) && rho(z)) && Truth(FirstTwo(t), rho) == (rho(x) && rho(y))
  {
    assert t.args[0] == x && t.args[1] == y && t.args[2] == z;
    LeafIsRead(x);
    LeafIsRead(y);
    var u := FirstTwo(t);
    assert u.args == [x, y] by { assert u.args[0] == x && u.args[1] == y; }
    forall rho: Term -> bool ensures Truth(t, rho) == (rho(x) && rho(y) && rho(z)) && Truth(u, rho) == (rho(x) && rho(y)) {
      assert Truth(t.args[0], rho) == rho(x) && Truth(t.args[1], rho) == rho(y) && Truth(t.args[2], rho) == rho(z);
      assert Truth(u.args[0], rho) == rho(x) && Truth(u.args[1], rho) == rho(y);
    }
  }

  /** The third argument of a conjunction is lost: no polynomial of what is read represents the term. */
  lemma ThirdArgumentLost(x: Term, y: Term, z: Term)
    requires WellSorted(x) && WellSorted(y) && WellSorted(z) && x.op.Var? && y.op.Var? && z.op.Var?
    requires x.sort == Bool && y.sort == Bool && z.sort == Bool && z != x && z != y
    ensures var t := Term(And, [x, y, z], Bool);
      && WellSorted(t) && Supported(t) && Supported(FirstTwo(t)) && !Equivalent(FirstTwo(t), t)
      && forall p: Poly, m: VarMap :: Represents(p, FirstTwo(t), m) ==> !Represents(p, t, m)
  {
    var t := Term(And, [x, y, z], Bool);
    ThreeRead(t, x, y, z);
    assert WellSorted(t);
    hide Truth, Value, FirstTwo, WellSorted, Supported;
    var u := FirstTwo(t);
    var rho: Term -> bool := v => v != z;
    assert Truth(u, rho) && !Truth(t, rho);
    forall p: Poly, m: VarMap | Represents(p, u, m) ensures !Represents(p, t, m) {
      assert Value(p, Assigned(m, rho)) == Truth(u, rho);
    }
  }

  /** The canonical term has the meaning of the original, for constants 0 or all ones, exactly when
      words have at most one bit or the original is 0 where all its variables are 0. */
  lemma SimplifiedMeaning(t: Term, u: Term)
    requires WellSorted(t) && t.sort.BitVec? && Supported(t) && ConstsFull(t) && Simplified(t, u)
    ensures (forall i, k :: Fits(i) && 0 <= k < t.sort.w ==> BitOf(u, i, k) == BitOf(t, i, k))
      <==> t.sort.w <= 1 || !Truth(t, AllFalse())
  {
    hide BitOf, Truth;
    forall i, k | Fits(i) && 0 <= k < t.sort.w ensures BitOf(t, i, k) == Truth(t, BitView(i, k)) { BitTruth(t, i, k); }
    if t.sort.w > 1 && Truth(t, AllFalse()) {
      var i := ZeroInterp();
      assert Fits(i);
      assert BitOf(u, i, 1) == (Truth(t, BitView(i, 1)) != (Truth(t, AllFalse()) && 1 > 0));
      assert BitOf(t, i, 1) == Truth(t, BitView(i, 1));
    }
  }

  /** So the negation of a Boolean variable never keeps its truth. */
  lemma NegationLost(x: Term)
    requires x.op.Var? && x.sort == Bool && WellSorted(x)
    ensures WellSorted(Term(Not, [x], Bool)) && Supported(Term(Not, [x], Bool)) && Truth(Term(Not, [x], Bool), AllFalse())
  {
    assert Supported(x) && !Truth(x, AllFalse());
  }
}
