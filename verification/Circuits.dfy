/** The arithmetic circuits of the bit-blaster. Every circuit is stated over all models of the
    clauses it has emitted. */
module BlastCircuits {
  import opened Lits
  import opened BitVectors
  import opened GateCnf

  /** The bits that the literals stand for in a valuation, least significant first. */
  ghost function Bits(m: Valuation, a: seq<Lit>): (r: seq<bool>)
    ensures |r| == |a|
  {
    seq(|a|, i requires 0 <= i < |a| => Holds(m, a[i]))
  }

  ghost function Val(m: Valuation, a: seq<Lit>): (v: nat)
    ensures v < Pow2(|a|)
  {
    Value(Bits(m, a))
  }

  lemma ValAppend(m: Valuation, a: seq<Lit>, l: Lit)
    ensures Val(m, a + [l]) == Val(m, a) + Bit(Holds(m, l)) * Pow2(|a|)
  {
    assert Bits(m, a + [l]) == Bits(m, a) + [Holds(m, l)];
    ValueAppend(Bits(m, a), Holds(m, l));
  }

  /** The next digit of a prefix. */
  lemma ValPrefix(m: Valuation, a: seq<Lit>, i: nat)
    requires i < |a|
    ensures Val(m, a[..i + 1]) == Val(m, a[..i]) + Bit(Holds(m, a[i])) * Pow2(i)
  {
    assert a[..i + 1] == a[..i] + [a[i]];
    ValAppend(m, a[..i], a[i]);
  }

  function Negated(a: seq<Lit>): (r: seq<Lit>)
    ensures |r| == |a| && forall i :: 0 <= i < |a| ==> r[i] == a[i].Not()
  {
    seq(|a|, i requires 0 <= i < |a| => a[i].Not())
  }

  function OneLits(n: nat, t: Lit): (r: seq<Lit>)
    ensures |r| == n && forall i :: 0 <= i < n ==> r[i] == if i == 0 then t else t.Not()
    ensures forall l :: l in r ==> l == t || l == t.Not()
  {
    seq(n, i => if i == 0 then t else t.Not())
  }

  function Repeat(n: nat, l: Lit): (r: seq<Lit>)
    ensures |r| == n && forall i :: 0 <= i < n ==> r[i] == l
    ensures forall x :: x in r ==> x == l
  {
    seq(n, _ => l)
  }

  lemma ValNegated(m: Valuation, a: seq<Lit>)
    ensures Val(m, Negated(a)) == Pow2(|a|) - 1 - Val(m, a)
  {
    ValueNot(Bits(m, a), Bits(m, Negated(a)));
  }

  lemma NegatedBelow(a: seq<Lit>, n: nat)
    requires Below(a, n)
    ensures Below(Negated(a), n)
  {
    forall l | l in Negated(a) ensures l.v < n {
      var i :| 0 <= i < |a| && Negated(a)[i] == l;
      assert a[i] in a;
    }
  }

  /** One column of a ripple-carry addition. */
  lemma Column(p: nat, x: nat, y: nat, s: nat, a: bool, b: bool, c: bool)
    ensures Bit((a != b) != c) * p + Bit((a && b) || (c && a != b)) * (2 * p)
         == Bit(a) * p + Bit(b) * p + Bit(c) * p
  {
  }

  lemma RippleStep(m: Valuation, a: seq<Lit>, b: seq<Lit>, i: nat, c0: bool, sum: seq<Lit>, carry: Lit, s: Lit, next: Lit)
    requires i < |a| && i < |b| && |sum| == i
    requires Val(m, sum) + Bit(Holds(m, carry)) * Pow2(i) == Val(m, a[..i]) + Val(m, b[..i]) + Bit(c0)
    requires Holds(m, s) <==> (Holds(m, a[i]) != Holds(m, b[i])) != Holds(m, carry)
    requires Holds(m, next) <==>
      (Holds(m, a[i]) && Holds(m, b[i])) || (Holds(m, carry) && Holds(m, a[i]) != Holds(m, b[i]))
    ensures Val(m, sum + [s]) + Bit(Holds(m, next)) * Pow2(i + 1) == Val(m, a[..i + 1]) + Val(m, b[..i + 1]) + Bit(c0)
  {
    ValPrefix(m, a, i);
    ValPrefix(m, b, i);
    ValAppend(m, sum, s);
    Column(Pow2(i), 0, 0, 0, Holds(m, a[i]), Holds(m, b[i]), Holds(m, carry));
  }

  /** A sum with carries in and out, reduced to the width. */
  lemma SumModulo(s: nat, c: nat, p: nat, total: int)
    requires p > 0 && s < p && s + c * p == total
    ensures s == total % p
  {
    ModUnique(total, p, c, s);
  }

  /** Subtraction as addition of the complement and one. */
  lemma DifferenceModulo(s: nat, c: nat, p: nat, x: nat, y: nat)
    requires p > 0 && s < p && s + c * p == x + (p - 1 - y) + 1
    ensures s == (x - y) % p
  {
    assert (c - 1) * p == c * p - p;
    ModUnique(x - y, p, c - 1, s);
  }

  lemma CarryStep(x: nat, y: nat, p: nat, a: bool, b: bool, c: bool)
    requires x < p && y < p && (c <==> x >= y)
    ensures (a && !b) || (c && a != !b) <==> x + Bit(a) * p >= y + Bit(b) * p
  {
  }

  class BitBlaster {
    var trueLit: Option<Lit>

    ghost predicate Ready(solver: Sink)
      reads this, solver
    {
      && solver.State().Wf()
      && (trueLit.Some? ==> trueLit.value.v < solver.numVars)
      && (trueLit.Some? ==> forall m: Valuation :: ModelsAll(m, solver.clauses) ==> Holds(m, trueLit.value))
    }

    constructor ()
      ensures trueLit == None
    {
      trueLit := None;
    }

    /** The literal that is true in every model, created on first use. */
    method GetTrueLit(solver: Sink) returns (l: Lit)
      requires Ready(solver)
      modifies this`trueLit, solver
      ensures Ready(solver) && Builds(old(solver.State()), solver.State())
      ensures l.v < solver.numVars && forall m: Valuation :: ModelsAll(m, solver.clauses) ==> Holds(m, l)
    {
      ghost var x := solver.State();
      GrownRefl(x);
      if trueLit.Some? {
        return trueLit.value;
      }
      var v := solver.NewVar();
      l := Lit(v, false);
      solver.AddClause([l]);
      forall m: Valuation ensures ModelsAll(With(m, v, true), {[l]}) {
        Sat1(With(m, v, true), l);
      }
      GateGrown(x, {[l]}, m => true);
      GrownTrans(x, solver.State());
      trueLit := Some(l);
      forall m: Valuation | ModelsAll(m, solver.clauses) ensures Holds(m, l) {
        assert [l] in solver.clauses;
        Sat1(m, l);
      }
    }

    method GetFalseLit(solver: Sink) returns (l: Lit)
      requires Ready(solver)
      modifies this`trueLit, solver
      ensures Ready(solver) && Builds(old(solver.State()), solver.State())
      ensures l.v < solver.numVars && forall m: Valuation :: ModelsAll(m, solver.clauses) ==> !Holds(m, l)
    {
      var t := GetTrueLit(solver);
      l := t.Not();
    }

    /** Sum and carry of one column. */
    method FullAdder(a: Lit, b: Lit, carry: Lit, solver: Sink) returns (s: Lit, next: Lit)
      requires Ready(solver) && a.v < solver.numVars && b.v < solver.numVars && carry.v < solver.numVars
      modifies solver
      ensures Ready(solver) && Builds(old(solver.State()), solver.State())
      ensures s.v < solver.numVars && next.v < solver.numVars
      ensures forall m: Valuation :: ModelsAll(m, solver.clauses) ==>
        && (Holds(m, s) <==> (Holds(m, a) != Holds(m, b)) != Holds(m, carry))
        && (Holds(m, next) <==> (Holds(m, a) && Holds(m, b)) || (Holds(m, carry) && Holds(m, a) != Holds(m, b)))
    {
      hide Grown, ModelsAll, Holds;
      var x := GateXor(a, b, solver);
      s := GateXor(x, carry, solver);
      next := CarryOut(a, b, carry, solver);
    }

    method CarryOut(a: Lit, b: Lit, carry: Lit, solver: Sink) returns (next: Lit)
      requires Ready(solver) && a.v < solver.numVars && b.v < solver.numVars && carry.v < solver.numVars
      modifies solver
      ensures Ready(solver) && Builds(old(solver.State()), solver.State())
      ensures next.v < solver.numVars
      ensures forall m: Valuation :: ModelsAll(m, solver.clauses) ==>
        (Holds(m, next) <==> (Holds(m, a) && Holds(m, b)) || (Holds(m, carry) && Holds(m, a) != Holds(m, b)))
    {
      hide Grown, ModelsAll, Holds;
      var aAndB := GateAnd(a, b, solver);
      var aXorB := GateXor(a, b, solver);
      var cAndXor := GateAnd(carry, aXorB, solver);
      next := GateOr(aAndB, cAndXor, solver);
    }

    /** Ripple-carry addition with a carry in. */
    method Ripple(a: seq<Lit>, b: seq<Lit>, carryIn: Lit, solver: Sink) returns (sum: seq<Lit>, carry: Lit)
      requires Ready(solver) && Below(a, solver.numVars) && Below(b, solver.numVars) && carryIn.v < solver.numVars
      requires |a| == |b|
      modifies solver
      ensures Ready(solver) && Builds(old(solver.State()), solver.State())
      ensures |sum| == |a| && Below(sum, solver.numVars) && carry.v < solver.numVars
      ensures forall m: Valuation :: ModelsAll(m, solver.clauses) ==>
        Val(m, sum) + Bit(Holds(m, carry)) * Pow2(|a|) == Val(m, a) + Val(m, b) + Bit(Holds(m, carryIn))
    {
      hide Grown, ModelsAll, Holds, Val, Formula.Wf, Pow2;
      GrownRefl(solver.State());
      sum, carry := [], carryIn;
      forall m: Valuation ensures Val(m, []) + Bit(Holds(m, carry)) * Pow2(0) == Val(m, a[..0]) + Val(m, b[..0]) + Bit(Holds(m, carryIn)) {
        EmptyVal(m);
        assert a[..0] == [] && b[..0] == [];
      }
      for i := 0 to |a|
        invariant Ready(solver) && Builds(old(solver.State()), solver.State())
        invariant |sum| == i && Below(sum, solver.numVars) && carry.v < solver.numVars
        invariant forall m: Valuation :: ModelsAll(m, solver.clauses) ==>
          Val(m, sum) + Bit(Holds(m, carry)) * Pow2(i) == Val(m, a[..i]) + Val(m, b[..i]) + Bit(Holds(m, carryIn))
      {
        assert a[i] in a && b[i] in b;
        var s, next := FullAdder(a[i], b[i], carry, solver);
        forall m: Valuation | ModelsAll(m, solver.clauses)
          ensures Val(m, sum + [s]) + Bit(Holds(m, next)) * Pow2(i + 1) == Val(m, a[..i + 1]) + Val(m, b[..i + 1]) + Bit(Holds(m, carryIn))
        {
          RippleStep(m, a, b, i, Holds(m, carryIn), sum, carry, s, next);
        }
        sum, carry := sum + [s], next;
      }
      assert a[..|a|] == a && b[..|a|] == b;
    }

    /** Addition modulo the width. */
    method CircuitAdder(a: seq<Lit>, b: seq<Lit>, solver: Sink) returns (sum: seq<Lit>)
      requires Ready(solver) && Below(a, solver.numVars) && Below(b, solver.numVars) && |a| == |b|
      modifies this`trueLit, solver
      ensures Ready(solver) && Builds(old(solver.State()), solver.State())
      ensures |sum| == |a| && Below(sum, solver.numVars)
      ensures forall m: Valuation :: ModelsAll(m, solver.clauses) ==> Val(m, sum) == BvAdd(Val(m, a), Val(m, b), |a|)
    {
      hide Grown, ModelsAll, Val, Formula.Wf, Pow2;
      var t := GetTrueLit(solver);
      var carry;
      sum, carry := Ripple(a, b, t.Not(), solver);
      forall m: Valuation | ModelsAll(m, solver.clauses) ensures Val(m, sum) == BvAdd(Val(m, a), Val(m, b), |a|) {
        SumModulo(Val(m, sum), Bit(Holds(m, carry)), Pow2(|a|), Val(m, a) + Val(m, b));
      }
    }

    /** Subtraction modulo the width: the complement of `b` is added with a carry in. */
    method CircuitSubtractor(a: seq<Lit>, b: seq<Lit>, solver: Sink) returns (diff: seq<Lit>)
      requires Ready(solver) && Below(a, solver.numVars) && Below(b, solver.numVars) && |a| == |b|
      modifies this`trueLit, solver
      ensures Ready(solver) && Builds(old(solver.State()), solver.State())
      ensures |diff| == |a| && Below(diff, solver.numVars)
      ensures forall m: Valuation :: ModelsAll(m, solver.clauses) ==> Val(m, diff) == BvSub(Val(m, a), Val(m, b), |a|)
    {
      hide Grown, ModelsAll, Val, Formula.Wf, Pow2;
      var t := GetTrueLit(solver);
      var carry;
      NegatedBelow(b, solver.numVars);
      diff, carry := Ripple(a, Negated(b), t, solver);
      forall m: Valuation | ModelsAll(m, solver.clauses) ensures Val(m, diff) == BvSub(Val(m, a), Val(m, b), |a|) {
        ValNegated(m, b);
        DifferenceModulo(Val(m, diff), Bit(Holds(m, carry)), Pow2(|a|), Val(m, a), Val(m, b));
      }
    }

    /** Unsigned comparison: the borrow of a subtraction. */
    method CircuitUlt(a: seq<Lit>, b: seq<Lit>, solver: Sink) returns (r: Lit)
      requires Ready(solver) && Below(a, solver.numVars) && Below(b, solver.numVars) && |a| == |b|
      modifies this`trueLit, solver
      ensures Ready(solver) && Builds(old(solver.State()), solver.State())
      ensures r.v < solver.numVars
      ensures forall m: Valuation :: ModelsAll(m, solver.clauses) ==> (Holds(m, r) <==> Val(m, a) < Val(m, b))
    {
      hide Grown, ModelsAll, Val, Formula.Wf, Pow2;
      var carry := GetTrueLit(solver);
      forall m: Valuation ensures Val(m, a[..0]) == Val(m, b[..0]) {
        assert a[..0] == [] && b[..0] == [];
      }
      for i := 0 to |a|
        invariant Ready(solver) && Builds(old(solver.State()), solver.State())
        invariant carry.v < solver.numVars
        invariant forall m: Valuation :: ModelsAll(m, solver.clauses) ==> (Holds(m, carry) <==> Val(m, a[..i]) >= Val(m, b[..i]))
      {
        assert a[i] in a && b[i] in b;
        ghost var c := carry;
        carry := CarryOut(a[i], b[i].Not(), carry, solver);
        forall m: Valuation | ModelsAll(m, solver.clauses)
          ensures Holds(m, carry) <==> Val(m, a[..i + 1]) >= Val(m, b[..i + 1])
        {
          ValPrefix(m, a, i);
          ValPrefix(m, b, i);
          HoldsNot(m, b[i]);
          CarryStep(Val(m, a[..i]), Val(m, b[..i]), Pow2(i), Holds(m, a[i]), Holds(m, b[i]), Holds(m, c));
        }
      }
      assert a[..|a|] == a && b[..|a|] == b;
      r := carry.Not();
    }

    /** Chooses between two vectors of the same width. */
    method IteVec(c: Lit, t: seq<Lit>, e: seq<Lit>, solver: Sink) returns (r: seq<Lit>)
      requires Ready(solver) && c.v < solver.numVars && Below(t, solver.numVars) && Below(e, solver.numVars) && |t| == |e|
      modifies solver
      ensures Ready(solver) && Builds(old(solver.State()), solver.State())
      ensures |r| == |t| && Below(r, solver.numVars)
      ensures forall m: Valuation :: ModelsAll(m, solver.clauses) ==> Bits(m, r) == if Holds(m, c) then Bits(m, t) else Bits(m, e)
    {
      hide Grown, ModelsAll, Holds, Formula.Wf;
      GrownRefl(solver.State());
      r := [];
      for i := 0 to |t|
        invariant Ready(solver) && Builds(old(solver.State()), solver.State())
        invariant |r| == i && Below(r, solver.numVars)
        invariant forall m: Valuation :: ModelsAll(m, solver.clauses) ==>
          forall k :: 0 <= k < i ==> (Holds(m, r[k]) <==> if Holds(m, c) then Holds(m, t[k]) else Holds(m, e[k]))
      {
        assert t[i] in t && e[i] in e;
        var g := GateIte(c, t[i], e[i], solver);
        r := r + [g];
      }
    }

    /** Whether two vectors are equal. */
    method CircuitEq(a: seq<Lit>, b: seq<Lit>, solver: Sink) returns (r: Lit)
      requires Ready(solver) && Below(a, solver.numVars) && Below(b, solver.numVars) && |a| == |b|
      modifies this`trueLit, solver
      ensures Ready(solver) && Builds(old(solver.State()), solver.State())
      ensures r.v < solver.numVars
      ensures forall m: Valuation :: ModelsAll(m, solver.clauses) ==> (Holds(m, r) <==> Val(m, a) == Val(m, b))
    {
      hide Grown, ModelsAll, Formula.Wf, Val;
      GrownRefl(solver.State());
      var eqBits: seq<Lit> := [];
      for i := 0 to |a|
        invariant Ready(solver) && Builds(old(solver.State()), solver.State())
        invariant |eqBits| == i && Below(eqBits, solver.numVars)
        invariant forall m: Valuation :: ModelsAll(m, solver.clauses) ==>
          forall k :: 0 <= k < i ==> (Holds(m, eqBits[k]) <==> Holds(m, a[k]) == Holds(m, b[k]))
      {
        assert a[i] in a && b[i] in b;
        var x := GateXor(a[i], b[i], solver);
        eqBits := eqBits + [x.Not()];
      }
      r := AllOf(eqBits, solver);
      forall m: Valuation | ModelsAll(m, solver.clauses) ensures Holds(m, r) <==> Val(m, a) == Val(m, b) {
        ValEqual(m, a, b);
      }
    }

    /** The conjunction of the literals. */
    method AllOf(a: seq<Lit>, solver: Sink) returns (r: Lit)
      requires Ready(solver) && Below(a, solver.numVars)
      modifies this`trueLit, solver
      ensures Ready(solver) && Builds(old(solver.State()), solver.State())
      ensures r.v < solver.numVars
      ensures forall m: Valuation :: ModelsAll(m, solver.clauses) ==>
        (Holds(m, r) <==> forall i :: 0 <= i < |a| ==> Holds(m, a[i]))
    {
      hide Grown, ModelsAll, Formula.Wf, Holds;
      r := GetTrueLit(solver);
      for i := 0 to |a|
        invariant Ready(solver) && Builds(old(solver.State()), solver.State())
        invariant r.v < solver.numVars
        invariant forall m: Valuation :: ModelsAll(m, solver.clauses) ==>
          (Holds(m, r) <==> forall k :: 0 <= k < i ==> Holds(m, a[k]))
      {
        assert a[i] in a;
        r := GateAnd(r, a[i], solver);
      }
    }

    /** Whether the vector is zero. */
    method CircuitIsZero(b: seq<Lit>, solver: Sink) returns (r: Lit)
      requires Ready(solver) && Below(b, solver.numVars)
      modifies this`trueLit, solver
      ensures Ready(solver) && Builds(old(solver.State()), solver.State())
      ensures r.v < solver.numVars
      ensures forall m: Valuation :: ModelsAll(m, solver.clauses) ==> (Holds(m, r) <==> Val(m, b) == 0)
    {
      NegatedBelow(b, solver.numVars);
      r := AllOf(Negated(b), solver);
      forall m: Valuation | ModelsAll(m, solver.clauses) ensures Holds(m, r) <==> Val(m, b) == 0 {
        ZeroBits(m, b);
      }
    }

    /** Signed comparison: by the signs if they differ, else unsigned. */
    method CircuitSlt(a: seq<Lit>, b: seq<Lit>, solver: Sink) returns (r: Lit)
      requires Ready(solver) && Below(a, solver.numVars) && Below(b, solver.numVars) && |a| == |b| > 0
      modifies this`trueLit, solver
      ensures Ready(solver) && Builds(old(solver.State()), solver.State())
      ensures r.v < solver.numVars
      ensures forall m: Valuation :: ModelsAll(m, solver.clauses) ==>
        (Holds(m, r) <==> Signed(Val(m, a), |a|) < Signed(Val(m, b), |a|))
    {
      hide Grown, ModelsAll, Formula.Wf, Val;
      var len := |a|;
      var signA, signB := a[len - 1], b[len - 1];
      assert signA in a && signB in b;
      var ult := CircuitUlt(a, b, solver);
      var signsDiff := GateXor(signA, signB, solver);
      r := GateIte(signsDiff, signA, ult, solver);
      forall m: Valuation | ModelsAll(m, solver.clauses)
        ensures Holds(m, r) <==> Signed(Val(m, a), |a|) < Signed(Val(m, b), |a|)
      {
        SignBit(m, a);
        SignBit(m, b);
      }
    }

    /** Two's complement negation: the complement plus one. */
    method CircuitNeg(a: seq<Lit>, solver: Sink) returns (r: seq<Lit>)
      requires Ready(solver) && Below(a, solver.numVars)
      modifies this`trueLit, solver
      ensures Ready(solver) && Builds(old(solver.State()), solver.State())
      ensures |r| == |a| && Below(r, solver.numVars)
      ensures forall m: Valuation :: ModelsAll(m, solver.clauses) ==> Val(m, r) == BvNeg(Val(m, a), |a|)
    {
      hide Grown, ModelsAll, Formula.Wf, Val, Pow2;
      var len := |a|;
      var notA := Negated(a);
      NegatedBelow(a, solver.numVars);
      var t := GetTrueLit(solver);
      var oneBits := OneLits(len, t);
      r := CircuitAdder(notA, oneBits, solver);
      forall m: Valuation | ModelsAll(m, solver.clauses) ensures Val(m, r) == BvNeg(Val(m, a), |a|) {
        ValNegated(m, a);
        OneBits(m, oneBits);
        NegByComplement(Val(m, a), len);
      }
    }

    /** Shift-and-add multiplication. */
    method CircuitMultiplier(a: seq<Lit>, b: seq<Lit>, solver: Sink) returns (acc: seq<Lit>)
      requires Ready(solver) && Below(a, solver.numVars) && Below(b, solver.numVars) && |a| == |b|
      modifies this`trueLit, solver
      ensures Ready(solver) && Builds(old(solver.State()), solver.State())
      ensures |acc| == |a| && Below(acc, solver.numVars)
      ensures forall m: Valuation :: ModelsAll(m, solver.clauses) ==> Val(m, acc) == BvMul(Val(m, a), Val(m, b), |a|)
    {
      hide Grown, ModelsAll, Formula.Wf, Val, Pow2, Holds, BvMul, BvAdd;
      var len := |a|;
      var falseL := GetFalseLit(solver);
      acc := Repeat(len, falseL);
      forall m: Valuation | ModelsAll(m, solver.clauses) ensures Val(m, acc) == BvMul(Val(m, a), Val(m, b[..0]), |a|) {
        FalseBits(m, acc);
        assert b[..0] == [];
        EmptyVal(m);
        MulZero(Val(m, a), len);
      }
      for i := 0 to len
        invariant Ready(solver) && Builds(old(solver.State()), solver.State())
        invariant falseL.v < solver.numVars && forall m: Valuation :: ModelsAll(m, solver.clauses) ==> !Holds(m, falseL)
        invariant |acc| == len && Below(acc, solver.numVars)
        invariant forall m: Valuation :: ModelsAll(m, solver.clauses) ==> Val(m, acc) == BvMul(Val(m, a), Val(m, b[..i]), len)
      {
        ghost var acc0 := acc;
        assert b[i] in b;
        var shiftedA := PartialProduct(a, b[i], i, falseL, solver);
        acc := CircuitAdder(acc, shiftedA, solver);
        forall m: Valuation | ModelsAll(m, solver.clauses)
          ensures Val(m, acc) == BvMul(Val(m, a), Val(m, b[..i + 1]), len)
        {
          ValPrefix(m, b, i);
          ProductStep(Val(m, a), Val(m, b[..i]), Holds(m, b[i]), i, len);
        }
      }
      assert b[..len] == b;
    }

    /** `a` shifted up by `i` where the bit is set, zero elsewhere. */
    method PartialProduct(a: seq<Lit>, bit: Lit, i: nat, falseL: Lit, solver: Sink) returns (shifted: seq<Lit>)
      requires Ready(solver) && Below(a, solver.numVars) && bit.v < solver.numVars && falseL.v < solver.numVars && i < |a|
      requires forall m: Valuation :: ModelsAll(m, solver.clauses) ==> !Holds(m, falseL)
      modifies solver
      ensures Ready(solver) && Builds(old(solver.State()), solver.State())
      ensures |shifted| == |a| && Below(shifted, solver.numVars)
      ensures forall m: Valuation :: ModelsAll(m, solver.clauses) ==>
        Val(m, shifted) == (Val(m, a) * (Bit(Holds(m, bit)) * Pow2(i))) % Pow2(|a|)
    {
      hide Grown, ModelsAll, Formula.Wf, Val, Pow2, Holds;
      GrownRefl(solver.State());
      var len := |a|;
      shifted := Repeat(len, falseL);
      for j := 0 to len - i
        invariant Ready(solver) && Builds(old(solver.State()), solver.State())
        invariant |shifted| == len && Below(shifted, solver.numVars)
        invariant forall k :: 0 <= k < len && (k < i || i + j <= k) ==> shifted[k] == falseL
        invariant forall m: Valuation :: ModelsAll(m, solver.clauses) ==>
          forall k :: 0 <= k < j ==> (Holds(m, shifted[i + k]) <==> Holds(m, a[k]) && Holds(m, bit))
      {
        assert a[j] in a;
        var g := GateAnd(a[j], bit, solver);
        shifted := shifted[i + j := g];
      }
      forall m: Valuation | ModelsAll(m, solver.clauses)
        ensures Val(m, shifted) == (Val(m, a) * (Bit(Holds(m, bit)) * Pow2(i))) % Pow2(len)
      {
        PartialValue(m, a, bit, i, shifted);
      }
    }

    // ---------- barrel shifters ----------

    /** The stages of a barrel shifter: stage `k` shifts by 2^k when bit `k` of `b` is set, as
        long as 2^k is below the width. Returns the number of stages used. */
    method ShiftStages(a: seq<Lit>, b: seq<Lit>, up: bool, fill: Lit, solver: Sink) returns (curr: seq<Lit>, stages: nat)
      requires Ready(solver) && Below(a, solver.numVars) && Below(b, solver.numVars) && fill.v < solver.numVars
      requires |b| <= 64 && a != []
      modifies solver
      ensures Ready(solver) && Builds(old(solver.State()), solver.State())
      ensures |curr| == |a| && Below(curr, solver.numVars)
      ensures stages <= |b| && forall k :: 0 <= k < |b| ==> (Pow2(k) >= |a| <==> stages <= k)
      ensures forall m: Valuation :: ModelsAll(m, solver.clauses) ==>
        ShiftedBy(Bits(m, a), Bits(m, curr), Val(m, b[..stages]), up, Holds(m, fill))
    {
      hide Grown, ModelsAll, Formula.Wf, Val, Pow2, Holds, ShiftedBy;
      GrownRefl(solver.State());
      curr, stages := a, 0;
      forall m: Valuation ensures ShiftedBy(Bits(m, a), Bits(m, curr), Val(m, b[..0]), up, Holds(m, fill)) {
        assert b[..0] == [];
        EmptyVal(m);
        ShiftedByZero(Bits(m, a), up, Holds(m, fill));
      }
      while stages < |b| && Pow2(stages) < |a|
        invariant Ready(solver) && Builds(old(solver.State()), solver.State())
        invariant |curr| == |a| && Below(curr, solver.numVars)
        invariant stages <= |b| && forall k :: 0 <= k < stages ==> Pow2(k) < |a|
        invariant forall m: Valuation :: ModelsAll(m, solver.clauses) ==>
          ShiftedBy(Bits(m, a), Bits(m, curr), Val(m, b[..stages]), up, Holds(m, fill))
      {
        var shift := Pow2(stages);
        var shiftedIn := if up then MovedUp(curr, shift, fill) else MovedDown(curr, shift, fill);
        assert b[stages] in b;
        ghost var was := curr;
        curr := IteVec(b[stages], shiftedIn, curr, solver);
        forall m: Valuation | ModelsAll(m, solver.clauses)
          ensures ShiftedBy(Bits(m, a), Bits(m, curr), Val(m, b[..stages + 1]), up, Holds(m, fill))
        {
          ValPrefix(m, b, stages);
          MovedBits(m, was, shift, up, fill);
          ShiftedByStep(Bits(m, a), Bits(m, was), Bits(m, curr), Val(m, b[..stages]), shift, Holds(m, b[stages]), up, Holds(m, fill));
        }
        stages := stages + 1;
      }
      forall k | 0 <= k < |b| ensures Pow2(k) >= |a| <==> stages <= k {
        if stages <= k { Pow2Mono(stages, k); }
      }
    }

    /** Whether a bit of the shift amount beyond the stages used is set. */
    method Overflow(b: seq<Lit>, width: nat, ghost stages: nat, solver: Sink) returns (overflow: Lit)
      requires Ready(solver) && Below(b, solver.numVars) && |b| <= 64
      requires stages <= |b| && forall k :: 0 <= k < |b| ==> (Pow2(k) >= width <==> stages <= k)
      modifies this`trueLit, solver
      ensures Ready(solver) && Builds(old(solver.State()), solver.State())
      ensures overflow.v < solver.numVars
      ensures forall m: Valuation :: ModelsAll(m, solver.clauses) ==>
        (Holds(m, overflow) <==> exists k :: stages <= k < |b| && Holds(m, b[k]))
    {
      hide Grown, ModelsAll, Formula.Wf, Pow2, Holds;
      overflow := GetFalseLit(solver);
      for k := 0 to |b|
        invariant Ready(solver) && Builds(old(solver.State()), solver.State())
        invariant overflow.v < solver.numVars
        invariant forall m: Valuation :: ModelsAll(m, solver.clauses) ==>
          (Holds(m, overflow) <==> exists j :: stages <= j < k && Holds(m, b[j]))
      {
        if Pow2(k) >= width {
          assert b[k] in b;
          overflow := GateOr(overflow, b[k], solver);
        }
      }
    }

    /** Logical shift left. */
    method CircuitShl(a: seq<Lit>, b: seq<Lit>, solver: Sink) returns (r: seq<Lit>)
      requires Ready(solver) && Below(a, solver.numVars) && Below(b, solver.numVars) && 0 < |a| == |b| <= 64
      modifies this`trueLit, solver
      ensures Ready(solver) && Builds(old(solver.State()), solver.State())
      ensures |r| == |a| && Below(r, solver.numVars)
      ensures forall m: Valuation :: ModelsAll(m, solver.clauses) ==> Val(m, r) == BvShl(Val(m, a), Val(m, b), |a|)
    {
      hide Grown, ModelsAll, Formula.Wf, Val, Pow2, Holds, ShiftedBy, BvShl;
      var falseL := GetFalseLit(solver);
      var curr, stages := ShiftStages(a, b, true, falseL, solver);
      var overflow := Overflow(b, |a|, stages, solver);
      r := IteVec(overflow, Repeat(|a|, falseL), curr, solver);
      forall m: Valuation | ModelsAll(m, solver.clauses) ensures Val(m, r) == BvShl(Val(m, a), Val(m, b), |a|) {
        ShlResult(m, a, b, curr, stages, overflow, falseL, r);
      }
    }

    /** Logical shift right. */
    method CircuitLshr(a: seq<Lit>, b: seq<Lit>, solver: Sink) returns (r: seq<Lit>)
      requires Ready(solver) && Below(a, solver.numVars) && Below(b, solver.numVars) && 0 < |a| == |b| <= 64
      modifies this`trueLit, solver
      ensures Ready(solver) && Builds(old(solver.State()), solver.State())
      ensures |r| == |a| && Below(r, solver.numVars)
      ensures forall m: Valuation :: ModelsAll(m, solver.clauses) ==> Val(m, r) == BvLshr(Val(m, a), Val(m, b), |a|)
    {
      hide Grown, ModelsAll, Formula.Wf, Val, Pow2, Holds, ShiftedBy, BvLshr;
      var falseL := GetFalseLit(solver);
      var curr, stages := ShiftStages(a, b, false, falseL, solver);
      var overflow := Overflow(b, |a|, stages, solver);
      r := IteVec(overflow, Repeat(|a|, falseL), curr, solver);
      forall m: Valuation | ModelsAll(m, solver.clauses) ensures Val(m, r) == BvLshr(Val(m, a), Val(m, b), |a|) {
        LshrResult(m, a, b, curr, stages, overflow, falseL, r);
      }
    }

    /** Arithmetic shift right: the sign bit fills. */
    method CircuitAshr(a: seq<Lit>, b: seq<Lit>, solver: Sink) returns (r: seq<Lit>)
      requires Ready(solver) && Below(a, solver.numVars) && Below(b, solver.numVars) && 0 < |a| == |b| <= 64
      modifies this`trueLit, solver
      ensures Ready(solver) && Builds(old(solver.State()), solver.State())
      ensures |r| == |a| && Below(r, solver.numVars)
      ensures forall m: Valuation :: ModelsAll(m, solver.clauses) ==> Val(m, r) == BvAshr(Val(m, a), Val(m, b), |a|)
    {
      hide Grown, ModelsAll, Formula.Wf, Val, Pow2, Holds, ShiftedBy, BvAshr;
      var signBit := a[|a| - 1];
      assert signBit in a;
      var curr, stages := ShiftStages(a, b, false, signBit, solver);
      var overflow := Overflow(b, |a|, stages, solver);
      r := IteVec(overflow, Repeat(|a|, signBit), curr, solver);
      forall m: Valuation | ModelsAll(m, solver.clauses) ensures Val(m, r) == BvAshr(Val(m, a), Val(m, b), |a|) {
        AshrResult(m, a, b, curr, stages, overflow, r);
      }
    }

    // ---------- division ----------

    /** Restoring division: quotient and remainder, with the SMT-LIB results for divisor 0. */
    method CircuitUdivUrem(a: seq<Lit>, b: seq<Lit>, solver: Sink) returns (finalQ: seq<Lit>, finalR: seq<Lit>)
      requires Ready(solver) && Below(a, solver.numVars) && Below(b, solver.numVars) && |a| == |b|
      modifies this`trueLit, solver
      ensures Ready(solver) && Builds(old(solver.State()), solver.State())
      ensures |finalQ| == |finalR| == |a| && Below(finalQ, solver.numVars) && Below(finalR, solver.numVars)
      ensures forall m: Valuation :: ModelsAll(m, solver.clauses) ==>
        && Val(m, finalQ) == BvUdiv(Val(m, a), Val(m, b), |a|)
        && Val(m, finalR) == BvUrem(Val(m, a), Val(m, b), |a|)
    {
      hide Grown, ModelsAll, Formula.Wf, Val, Pow2, Holds, Dividing, BvUdiv, BvUrem, Bits;
      var len := |a|;
      var falseL := GetFalseLit(solver);
      var trueL := GetTrueLit(solver);
      if len == 0 {
        EmptyDivision(a, b);
        return [], [];
      }
      // the quotient bits found so far, the highest last found first
      var q: seq<Lit> := [];
      var r := Repeat(len, falseL);
      forall m: Valuation | ModelsAll(m, solver.clauses) ensures Dividing(m, a, b, len, q, r) {
        DividingStart(m, a, b, r);
      }
      var i := len;
      while i > 0
        invariant 0 <= i <= len && |q| == len - i && |r| == len
        invariant Ready(solver) && Builds(old(solver.State()), solver.State())
        invariant Below(q, solver.numVars) && Below(r, solver.numVars) && trueL.v < solver.numVars
        invariant forall m: Valuation :: ModelsAll(m, solver.clauses) ==> Holds(m, trueL)
        invariant forall m: Valuation :: ModelsAll(m, solver.clauses) ==> Dividing(m, a, b, i, q, r)
      {
        i := i - 1;
        ghost var q0, r0 := q, r;
        var doSub;
        doSub, r := DivisionStep(a[i], b, r, solver) by { assert a[i] in a; }
        q := [doSub] + q;
        forall m: Valuation | ModelsAll(m, solver.clauses) ensures Dividing(m, a, b, i, q, r) {
          DividingStep(m, a, b, i, q0, r0, doSub, r);
        }
      }
      var isZero := CircuitIsZero(b, solver);
      finalQ := IteVec(isZero, Repeat(len, trueL), q, solver);
      finalR := IteVec(isZero, a, r, solver);
      forall m: Valuation | ModelsAll(m, solver.clauses)
        ensures Val(m, finalQ) == BvUdiv(Val(m, a), Val(m, b), len) && Val(m, finalR) == BvUrem(Val(m, a), Val(m, b), len)
      {
        DivisionResult(m, a, b, q, r, trueL, isZero, finalQ, finalR);
      }
    }

    /** Brings down one bit of the dividend and subtracts the divisor if it fits; the bit that
        the shift pushes out of the remainder forces the subtraction. */
    method DivisionStep(bit: Lit, b: seq<Lit>, r: seq<Lit>, solver: Sink) returns (doSub: Lit, r': seq<Lit>)
      requires Ready(solver) && bit.v < solver.numVars && Below(b, solver.numVars) && Below(r, solver.numVars)
      requires |b| == |r| > 0
      modifies this`trueLit, solver
      ensures Ready(solver) && Builds(old(solver.State()), solver.State())
      ensures doSub.v < solver.numVars && Below(r', solver.numVars) && |r'| == |r|
      ensures forall m: Valuation :: ModelsAll(m, solver.clauses) ==>
        var x, p := Bit(Holds(m, bit)) + 2 * Val(m, r), Pow2(|r|);
        && (Holds(m, doSub) <==> x >= p || x % p >= Val(m, b))
        && Val(m, r') == if Holds(m, doSub) then (x % p - Val(m, b)) % p else x % p
    {
      hide Grown, ModelsAll, Formula.Wf, Val, Pow2, Holds;
      var len := |r|;
      var rNext := [bit] + r[..len - 1];
      var overflow := r[len - 1];
      assert overflow in r;
      forall l | l in rNext ensures l.v < solver.numVars {
        assert l == bit || l in r;
      }
      var rLtB := CircuitUlt(rNext, b, solver);
      var rGeB := rLtB.Not();
      doSub := GateOr(overflow, rGeB, solver);
      var subRes := CircuitSubtractor(rNext, b, solver);
      r' := IteVec(doSub, subRes, rNext, solver);
      forall m: Valuation | ModelsAll(m, solver.clauses)
        ensures var x, p := Bit(Holds(m, bit)) + 2 * Val(m, r), Pow2(|r|);
          && (Holds(m, doSub) <==> x >= p || x % p >= Val(m, b))
          && Val(m, r') == if Holds(m, doSub) then (x % p - Val(m, b)) % p else x % p
      {
        ShiftIn(m, bit, r, rNext);
        HoldsNot(m, rLtB);
        SameVal(m, r', if Holds(m, doSub) then subRes else rNext);
      }
    }

    /** The absolute value in two's complement. */
    method Absolute(a: seq<Lit>, solver: Sink) returns (r: seq<Lit>)
      requires Ready(solver) && Below(a, solver.numVars) && a != []
      modifies this`trueLit, solver
      ensures Ready(solver) && Builds(old(solver.State()), solver.State())
      ensures |r| == |a| && Below(r, solver.numVars)
      ensures forall m: Valuation :: ModelsAll(m, solver.clauses) ==> Val(m, r) == BvAbs(Val(m, a), |a|)
    {
      hide Grown, ModelsAll, Formula.Wf, Val, Pow2, Holds;
      var sign := a[|a| - 1];
      assert sign in a;
      var negA := CircuitNeg(a, solver);
      r := IteVec(sign, negA, a, solver);
      forall m: Valuation | ModelsAll(m, solver.clauses) ensures Val(m, r) == BvAbs(Val(m, a), |a|) {
        SignBit(m, a);
        SameVal(m, r, if Holds(m, sign) then negA else a);
      }
    }

    /** What a signed division by zero gives: 1 under the sign of the dividend, else all ones. */
    method QuotientByZero(signA: Lit, len: nat, trueL: Lit, solver: Sink) returns (r: seq<Lit>)
      requires Ready(solver) && signA.v < solver.numVars && trueL.v < solver.numVars && len > 0
      requires forall m: Valuation :: ModelsAll(m, solver.clauses) ==> Holds(m, trueL)
      modifies this`trueLit, solver
      ensures Ready(solver) && Builds(old(solver.State()), solver.State())
      ensures |r| == len && Below(r, solver.numVars)
      ensures forall m: Valuation :: ModelsAll(m, solver.clauses) ==> Val(m, r) == if Holds(m, signA) then 1 else Pow2(len) - 1
    {
      hide Grown, ModelsAll, Formula.Wf, Val, Pow2, Holds, Bits;
      GrownRefl(solver.State());
      r := IteVec(signA, OneLits(len, trueL), Repeat(len, trueL), solver);
      forall m: Valuation | ModelsAll(m, solver.clauses) ensures Val(m, r) == if Holds(m, signA) then 1 else Pow2(len) - 1 {
        SameVal(m, r, if Holds(m, signA) then OneLits(len, trueL) else Repeat(len, trueL));
        OneLitsValue(m, len, trueL);
      }
    }

    /** Signed division. */
    method CircuitSdiv(a: seq<Lit>, b: seq<Lit>, solver: Sink) returns (r: seq<Lit>)
      requires Ready(solver) && Below(a, solver.numVars) && Below(b, solver.numVars) && |a| == |b|
      modifies this`trueLit, solver
      ensures Ready(solver) && Builds(old(solver.State()), solver.State())
      ensures |r| == |a| && Below(r, solver.numVars)
      ensures a != [] ==> forall m: Valuation :: ModelsAll(m, solver.clauses) ==>
        Val(m, r) == BvSdiv(Val(m, a), Val(m, b), |a|)
    {
      hide Grown, ModelsAll, Formula.Wf, Val, Pow2, Holds, BvSdiv, BvUdiv, BvUrem, BvAbs, BvNeg, Bits, Negative;
      GrownRefl(solver.State());
      if a == [] {
        return [];
      }
      var len := |a|;
      var trueL := GetTrueLit(solver);
      var signA, signB := a[len - 1], b[len - 1];
      assert signA in a && signB in b;
      var absA := Absolute(a, solver);
      var absB := Absolute(b, solver);
      var qAbs, rAbs := CircuitUdivUrem(absA, absB, solver);
      var negQ := CircuitNeg(qAbs, solver);
      var signsDiff := GateXor(signA, signB, solver);
      var normal := IteVec(signsDiff, negQ, qAbs, solver);
      var isBZero := CircuitIsZero(b, solver);
      var div0 := QuotientByZero(signA, len, trueL, solver);
      r := IteVec(isBZero, div0, normal, solver);
      forall m: Valuation | ModelsAll(m, solver.clauses) ensures Val(m, r) == BvSdiv(Val(m, a), Val(m, b), len) {
        SignBit(m, a);
        SignBit(m, b);
        SameVal(m, normal, if Holds(m, signsDiff) then negQ else qAbs);
        SameVal(m, r, if Holds(m, isBZero) then div0 else normal);
        SdivResult(Val(m, a), Val(m, b), Val(m, qAbs), len);
      }
    }

    /** The word, negated when the literal holds. */
    method NegatedIf(sign: Lit, x: seq<Lit>, solver: Sink) returns (r: seq<Lit>)
      requires Ready(solver) && sign.v < solver.numVars && Below(x, solver.numVars) && x != []
      modifies this`trueLit, solver
      ensures Ready(solver) && Builds(old(solver.State()), solver.State())
      ensures |r| == |x| && Below(r, solver.numVars)
      ensures forall m: Valuation :: ModelsAll(m, solver.clauses) ==>
        Val(m, r) == if Holds(m, sign) then BvNeg(Val(m, x), |x|) else Val(m, x)
    {
      hide Grown, ModelsAll, Formula.Wf, Val, Pow2, Holds, BvNeg, Bits;
      GrownRefl(solver.State());
      var neg := CircuitNeg(x, solver);
      r := IteVec(sign, neg, x, solver);
      forall m: Valuation | ModelsAll(m, solver.clauses)
        ensures Val(m, r) == if Holds(m, sign) then BvNeg(Val(m, x), |x|) else Val(m, x)
      {
        SameVal(m, r, if Holds(m, sign) then neg else x);
      }
    }

    /** Signed remainder, with the sign of the dividend. */
    method CircuitSrem(a: seq<Lit>, b: seq<Lit>, solver: Sink) returns (r: seq<Lit>)
      requires Ready(solver) && Below(a, solver.numVars) && Below(b, solver.numVars) && |a| == |b|
      modifies this`trueLit, solver
      ensures Ready(solver) && Builds(old(solver.State()), solver.State())
      ensures |r| == |a| && Below(r, solver.numVars)
      ensures a != [] ==> forall m: Valuation :: ModelsAll(m, solver.clauses) ==>
        Val(m, r) == BvSrem(Val(m, a), Val(m, b), |a|)
    {
      hide Grown, ModelsAll, Formula.Wf, Val, Pow2, Holds, BvSrem, BvUdiv, BvUrem, BvAbs, BvNeg, Bits, Negative;
      GrownRefl(solver.State());
      if a == [] {
        return [];
      }
      var len := |a|;
      var signA := a[len - 1];
      assert signA in a;
      var absA := Absolute(a, solver);
      var absB := Absolute(b, solver);
      var qAbs, rAbs := CircuitUdivUrem(absA, absB, solver);
      var normal := NegatedIf(signA, rAbs, solver);
      var isBZero := CircuitIsZero(b, solver);
      r := IteVec(isBZero, a, normal, solver);
      forall m: Valuation | ModelsAll(m, solver.clauses) ensures Val(m, r) == BvSrem(Val(m, a), Val(m, b), len) {
        SignBit(m, a);
        SameVal(m, r, if Holds(m, isBZero) then a else normal);
        SremResult(Val(m, a), Val(m, b), Val(m, rAbs), len);
      }
    }

    /** The sum when the literal holds, else the first word. */
    method AddedIf(cond: Lit, x: seq<Lit>, b: seq<Lit>, solver: Sink) returns (r: seq<Lit>)
      requires Ready(solver) && cond.v < solver.numVars && Below(x, solver.numVars) && Below(b, solver.numVars) && |x| == |b|
      modifies this`trueLit, solver
      ensures Ready(solver) && Builds(old(solver.State()), solver.State())
      ensures |r| == |x| && Below(r, solver.numVars)
      ensures forall m: Valuation :: ModelsAll(m, solver.clauses) ==>
        Val(m, r) == if Holds(m, cond) then BvAdd(Val(m, x), Val(m, b), |x|) else Val(m, x)
    {
      hide Grown, ModelsAll, Formula.Wf, Val, Pow2, Holds, BvAdd, Bits;
      GrownRefl(solver.State());
      var sum := CircuitAdder(x, b, solver);
      r := IteVec(cond, sum, x, solver);
      forall m: Valuation | ModelsAll(m, solver.clauses)
        ensures Val(m, r) == if Holds(m, cond) then BvAdd(Val(m, x), Val(m, b), |x|) else Val(m, x)
      {
        SameVal(m, r, if Holds(m, cond) then sum else x);
      }
    }

    /** Signed modulo, with the sign of the divisor. */
    method CircuitSmod(a: seq<Lit>, b: seq<Lit>, solver: Sink) returns (r: seq<Lit>)
      requires Ready(solver) && Below(a, solver.numVars) && Below(b, solver.numVars) && |a| == |b|
      modifies this`trueLit, solver
      ensures Ready(solver) && Builds(old(solver.State()), solver.State())
      ensures |r| == |a| && Below(r, solver.numVars)
      ensures a != [] ==> forall m: Valuation :: ModelsAll(m, solver.clauses) ==>
        Val(m, r) == BvSmod(Val(m, a), Val(m, b), |a|)
    {
      hide Grown, ModelsAll, Formula.Wf, Val, Pow2, Holds, BvSrem, BvSmod, BvAdd, Bits, Negative;
      GrownRefl(solver.State());
      if a == [] {
        return [];
      }
      var len := |a|;
      var rem := CircuitSrem(a, b, solver);
      var isRemZero := CircuitIsZero(rem, solver);
      var signA, signB := a[len - 1], b[len - 1];
      assert signA in a && signB in b;
      var signsDiff := GateXor(signA, signB, solver);
      var nonZero := AddedIf(signsDiff, rem, b, solver);
      var falseL := GetFalseLit(solver);
      var adjusted := IteVec(isRemZero, Repeat(len, falseL), nonZero, solver);
      var isBZero := CircuitIsZero(b, solver);
      r := IteVec(isBZero, a, adjusted, solver);
      forall m: Valuation | ModelsAll(m, solver.clauses) ensures Val(m, r) == BvSmod(Val(m, a), Val(m, b), len) {
        SignBit(m, a);
        SignBit(m, b);
        FalseBits(m, Repeat(len, falseL));
        SameVal(m, adjusted, if Holds(m, isRemZero) then Repeat(len, falseL) else nonZero);
        SameVal(m, r, if Holds(m, isBZero) then a else adjusted);
        SmodResult(Val(m, a), Val(m, b), len);
      }
    }
  }

  lemma EmptyVal(m: Valuation)
    ensures Val(m, []) == 0 && Pow2(0) == 1
  {
  }

  lemma ValEqual(m: Valuation, a: seq<Lit>, b: seq<Lit>)
    requires |a| == |b|
    ensures Val(m, a) == Val(m, b) <==> forall i :: 0 <= i < |a| ==> Holds(m, a[i]) == Holds(m, b[i])
  {
    ValueInjective(Bits(m, a), Bits(m, b));
    if forall i :: 0 <= i < |a| ==> Holds(m, a[i]) == Holds(m, b[i]) {
      assert Bits(m, a) == Bits(m, b);
    } else {
      var i :| 0 <= i < |a| && Holds(m, a[i]) != Holds(m, b[i]);
      assert Bits(m, a)[i] != Bits(m, b)[i];
    }
  }

  lemma SignBit(m: Valuation, a: seq<Lit>)
    requires a != []
    ensures Holds(m, a[|a| - 1]) <==> Negative(Val(m, a), |a|)
  {
    TopBit(Bits(m, a));
  }

  lemma FalseBits(m: Valuation, a: seq<Lit>)
    requires forall i :: 0 <= i < |a| ==> !Holds(m, a[i])
    ensures Val(m, a) == 0
  {
    ValueAllFalse(Bits(m, a));
  }

  lemma ZeroBits(m: Valuation, a: seq<Lit>)
    ensures (forall i :: 0 <= i < |a| ==> Holds(m, Negated(a)[i])) <==> Val(m, a) == 0
  {
    ValueAllFalse(Bits(m, a));
    forall i | 0 <= i < |a| ensures Holds(m, Negated(a)[i]) <==> !Bits(m, a)[i] {
    }
  }

  lemma TrueBits(m: Valuation, a: seq<Lit>)
    requires forall i :: 0 <= i < |a| ==> Holds(m, a[i])
    ensures Val(m, a) == Pow2(|a|) - 1
  {
    ValueAllTrue(Bits(m, a));
  }

  /** A vector with only its lowest bit set. */
  lemma OneBits(m: Valuation, a: seq<Lit>)
    requires forall i :: 0 <= i < |a| ==> (Holds(m, a[i]) <==> i == 0)
    ensures Val(m, a) == if a == [] then 0 else 1
  {
    if a != [] {
      assert Bits(m, a) == [true] + Bits(m, a[1..]);
      ValueCons(true, Bits(m, a[1..]));
      FalseBits(m, a[1..]);
    }
  }

  lemma NegByComplement(x: nat, w: nat)
    requires InRange(x, w)
    ensures BvAdd(Pow2(w) - 1 - x, if w == 0 then 0 else 1, w) == BvNeg(x, w)
  {
    if w > 0 {
      if x == 0 {
        ModUnique(Pow2(w), Pow2(w), 1, 0);
      } else {
        ModUnique(Pow2(w) - x, Pow2(w), 0, Pow2(w) - x);
      }
    }
  }

  lemma MulZero(x: nat, w: nat)
    ensures BvMul(x, 0, w) == 0
  {
    assert x * 0 == 0;
    ModUnique(0, Pow2(w), 0, 0);
  }

  lemma ProductStep(x: nat, y: nat, b: bool, i: nat, w: nat)
    ensures BvAdd(BvMul(x, y, w), (x * (Bit(b) * Pow2(i))) % Pow2(w), w) == BvMul(x, y + Bit(b) * Pow2(i), w)
  {
    var p, z := Pow2(w), Bit(b) * Pow2(i);
    ModAddMod(x * y, (x * z) % p, p);
    ModAddMod(x * z, x * y, p);
    Distribute(x, y, z);
  }

  lemma PartialValue(m: Valuation, a: seq<Lit>, bit: Lit, i: nat, shifted: seq<Lit>)
    requires i < |a| == |shifted|
    requires forall k :: 0 <= k < i ==> !Holds(m, shifted[k])
    requires forall k :: 0 <= k < |a| - i ==> (Holds(m, shifted[i + k]) <==> Holds(m, a[k]) && Holds(m, bit))
    ensures Val(m, shifted) == (Val(m, a) * (Bit(Holds(m, bit)) * Pow2(i))) % Pow2(|a|)
  {
    hide Pow2, Value, Bit;
    if Holds(m, bit) {
      assert Bits(m, shifted) == ShiftedUp(Bits(m, a), i);
      ShiftedUpValue(Bits(m, a), i);
    } else {
      forall k | 0 <= k < |shifted| ensures !Holds(m, shifted[k]) {
        if k >= i {
          var j := k - i;
          assert Holds(m, shifted[i + j]) <==> Holds(m, a[j]) && Holds(m, bit);
        }
      }
      FalseBits(m, shifted);
    }
    BitProduct(Val(m, a), Holds(m, bit), Pow2(i), Pow2(|a|));
  }

  lemma BitProduct(x: nat, b: bool, p: nat, q: nat)
    requires q > 0
    ensures (x * (Bit(b) * p)) % q == if b then (x * p) % q else 0
  {
    if !b {
      assert x * (0 * p) == 0;
      ModUnique(0, q, 0, 0);
    }
  }

  // ---------- barrel shifters ----------

  function MovedUp(a: seq<Lit>, k: nat, fill: Lit): (r: seq<Lit>)
    ensures |r| == |a| && forall i :: 0 <= i < |a| ==> r[i] == if i >= k then a[i - k] else fill
    ensures forall l :: l in r ==> l in a || l == fill
  {
    seq(|a|, i requires 0 <= i < |a| => if i >= k then a[i - k] else fill)
  }

  function MovedDown(a: seq<Lit>, k: nat, fill: Lit): (r: seq<Lit>)
    ensures |r| == |a| && forall i :: 0 <= i < |a| ==> r[i] == if i + k < |a| then a[i + k] else fill
    ensures forall l :: l in r ==> l in a || l == fill
  {
    seq(|a|, i requires 0 <= i < |a| => if i + k < |a| then a[i + k] else fill)
  }

  /** `r` is `a` shifted by `k`, amounts of the width or more leaving only the fill. */
  ghost predicate ShiftedBy(a: seq<bool>, r: seq<bool>, k: nat, up: bool, fill: bool) {
    && |r| == |a|
    && forall i :: 0 <= i < |a| ==>
      (r[i] <==> if up then (if i >= k then a[i - k] else fill) else (if i + k < |a| then a[i + k] else fill))
  }

  lemma ShiftedByZero(a: seq<bool>, up: bool, fill: bool)
    ensures ShiftedBy(a, a, 0, up, fill)
  {
  }

  lemma MovedBits(m: Valuation, a: seq<Lit>, k: nat, up: bool, fill: Lit)
    ensures ShiftedBy(Bits(m, a), Bits(m, if up then MovedUp(a, k, fill) else MovedDown(a, k, fill)), k, up, Holds(m, fill))
  {
    hide Holds;
    if up { MovedUpBits(m, a, k, fill); } else { MovedDownBits(m, a, k, fill); }
  }

  lemma MovedUpBits(m: Valuation, a: seq<Lit>, k: nat, fill: Lit)
    ensures ShiftedBy(Bits(m, a), Bits(m, MovedUp(a, k, fill)), k, true, Holds(m, fill))
  {
    hide Holds;
    var r := MovedUp(a, k, fill);
    forall i | 0 <= i < |a| ensures Bits(m, r)[i] == if i >= k then Bits(m, a)[i - k] else Holds(m, fill) {
      assert Bits(m, r)[i] == Holds(m, r[i]);
    }
  }

  lemma MovedDownBits(m: Valuation, a: seq<Lit>, k: nat, fill: Lit)
    ensures ShiftedBy(Bits(m, a), Bits(m, MovedDown(a, k, fill)), k, false, Holds(m, fill))
  {
    hide Holds;
    var r := MovedDown(a, k, fill);
    forall i | 0 <= i < |a| ensures Bits(m, r)[i] == if i + k < |a| then Bits(m, a)[i + k] else Holds(m, fill) {
      assert Bits(m, r)[i] == Holds(m, r[i]);
    }
  }

  lemma ShiftedByStep(a: seq<bool>, was: seq<bool>, now: seq<bool>, k: nat, shift: nat, set_: bool, up: bool, fill: bool)
    requires ShiftedBy(a, was, k, up, fill)
    requires if set_ then ShiftedBy(was, now, shift, up, fill) else now == was
    ensures ShiftedBy(a, now, k + Bit(set_) * shift, up, fill)
  {
    if set_ { assert Bit(true) * shift == shift; } else { assert Bit(false) * shift == 0; }
  }

  /** The shift amount splits into the stages used and the bits beyond, each worth the width. */
  lemma HighPart(hi: nat, p: nat, width: nat)
    requires p >= width
    ensures hi >= 1 ==> p * hi >= width
    ensures hi == 0 ==> p * hi == 0
  {
    if hi >= 1 {
      MulLe(1, hi, p);
      TimesCommute(p, hi);
    }
  }

  lemma AmountSplit(m: Valuation, b: seq<Lit>, stages: nat, width: nat)
    requires stages <= |b| && forall k :: 0 <= k < |b| ==> (Pow2(k) >= width <==> stages <= k)
    ensures !(exists k :: stages <= k < |b| && Holds(m, b[k])) ==> Val(m, b) == Val(m, b[..stages])
    ensures (exists k :: stages <= k < |b| && Holds(m, b[k])) ==> Val(m, b) >= width
  {
    hide Value, Pow2;
    var lo, hi := b[..stages], b[stages..];
    assert b == lo + hi;
    assert Bits(m, b) == Bits(m, lo) + Bits(m, hi);
    ValueSplit(Bits(m, lo), Bits(m, hi));
    ValueAllFalse(Bits(m, hi));
    if exists k :: stages <= k < |b| && Holds(m, b[k]) {
      var k :| stages <= k < |b| && Holds(m, b[k]);
      assert Bits(m, hi)[k - stages];
      assert Pow2(stages) >= width;
      HighPart(Val(m, hi), Pow2(stages), width);
    } else {
      forall i | 0 <= i < |hi| ensures !Bits(m, hi)[i] {
        assert hi[i] == b[stages + i];
      }
      TimesCommute(Pow2(stages), 0);
    }
  }

  lemma TimesCommute(x: int, y: int)
    ensures x * y == y * x && x * 0 == 0 && 1 * x == x
  {
  }

  lemma ShiftedUpIs(a: seq<bool>, r: seq<bool>, k: nat)
    requires ShiftedBy(a, r, k, true, false)
    ensures Value(r) == (Value(a) * Pow2(k)) % Pow2(|a|)
  {
    if k <= |a| {
      assert r == ShiftedUp(a, k);
      ShiftedUpValue(a, k);
    } else {
      ValueAllFalse(r);
      TimesPow2Vanishes(Value(a), k, |a|);
    }
  }

  lemma ShiftedDownIs(a: seq<bool>, r: seq<bool>, k: nat)
    requires ShiftedBy(a, r, k, false, false)
    ensures Value(r) == Value(a) / Pow2(k)
  {
    if k <= |a| {
      assert r == ShiftedDown(a, k, false);
      ShiftedDownValue(a, k);
    } else {
      ValueAllFalse(r);
      Pow2Mono(|a|, k);
      SmallDiv(Value(a), Pow2(k));
    }
  }

  lemma ShlResult(m: Valuation, a: seq<Lit>, b: seq<Lit>, curr: seq<Lit>, stages: nat, overflow: Lit, falseL: Lit, r: seq<Lit>)
    requires 0 < |a| == |b| == |curr| == |r| && !Holds(m, falseL)
    requires stages <= |b| && forall k :: 0 <= k < |b| ==> (Pow2(k) >= |a| <==> stages <= k)
    requires ShiftedBy(Bits(m, a), Bits(m, curr), Val(m, b[..stages]), true, Holds(m, falseL))
    requires Holds(m, overflow) <==> exists k :: stages <= k < |b| && Holds(m, b[k])
    requires Bits(m, r) == if Holds(m, overflow) then Bits(m, Repeat(|a|, falseL)) else Bits(m, curr)
    ensures Val(m, r) == BvShl(Val(m, a), Val(m, b), |a|)
  {
    AmountSplit(m, b, stages, |a|);
    if Holds(m, overflow) {
      FalseBits(m, Repeat(|a|, falseL));
    } else {
      ShiftedUpIs(Bits(m, a), Bits(m, curr), Val(m, b));
      if Val(m, b) >= |a| { TimesPow2Vanishes(Val(m, a), Val(m, b), |a|); }
    }
  }

  lemma LshrResult(m: Valuation, a: seq<Lit>, b: seq<Lit>, curr: seq<Lit>, stages: nat, overflow: Lit, falseL: Lit, r: seq<Lit>)
    requires 0 < |a| == |b| == |curr| == |r| && !Holds(m, falseL)
    requires stages <= |b| && forall k :: 0 <= k < |b| ==> (Pow2(k) >= |a| <==> stages <= k)
    requires ShiftedBy(Bits(m, a), Bits(m, curr), Val(m, b[..stages]), false, Holds(m, falseL))
    requires Holds(m, overflow) <==> exists k :: stages <= k < |b| && Holds(m, b[k])
    requires Bits(m, r) == if Holds(m, overflow) then Bits(m, Repeat(|a|, falseL)) else Bits(m, curr)
    ensures Val(m, r) == BvLshr(Val(m, a), Val(m, b), |a|)
  {
    AmountSplit(m, b, stages, |a|);
    if Holds(m, overflow) {
      FalseBits(m, Repeat(|a|, falseL));
    } else {
      ShiftedDownIs(Bits(m, a), Bits(m, curr), Val(m, b));
      if Val(m, b) >= |a| {
        Pow2Mono(|a|, Val(m, b));
        SmallDiv(Val(m, a), Pow2(Val(m, b)));
      }
    }
  }

  lemma AshrResult(m: Valuation, a: seq<Lit>, b: seq<Lit>, curr: seq<Lit>, stages: nat, overflow: Lit, r: seq<Lit>)
    requires 0 < |a| == |b| == |curr| == |r|
    requires stages <= |b| && forall k :: 0 <= k < |b| ==> (Pow2(k) >= |a| <==> stages <= k)
    requires ShiftedBy(Bits(m, a), Bits(m, curr), Val(m, b[..stages]), false, Holds(m, a[|a| - 1]))
    requires Holds(m, overflow) <==> exists k :: stages <= k < |b| && Holds(m, b[k])
    requires Bits(m, r) == if Holds(m, overflow) then Bits(m, Repeat(|a|, a[|a| - 1])) else Bits(m, curr)
    ensures Val(m, r) == BvAshr(Val(m, a), Val(m, b), |a|)
  {
    hide Val, Bits, Pow2, BvLshr, ShiftedBy, Value;
    SignBit(m, a);
    var sign := a[|a| - 1];
    NotHolds(m, sign);
    if !Holds(m, sign) {
      LshrResult(m, a, b, curr, stages, overflow, sign, r);
    } else {
      // complementing everything turns the sign fill into a zero fill
      ValNegated(m, a);
      ValNegated(m, r);
      NegatedShift(m, a, curr, Val(m, b[..stages]));
      NegatedSame(m, r, if Holds(m, overflow) then Repeat(|a|, sign) else curr);
      assert Negated(Repeat(|a|, sign)) == Repeat(|a|, sign.Not());
      LshrResult(m, Negated(a), b, Negated(curr), stages, overflow, sign.Not(), Negated(r));
    }
  }

  lemma NotHolds(m: Valuation, l: Lit)
    ensures Holds(m, l.Not()) == !Holds(m, l)
  {
  }

  lemma NegatedShift(m: Valuation, a: seq<Lit>, curr: seq<Lit>, k: nat)
    requires |a| == |curr| && ShiftedBy(Bits(m, a), Bits(m, curr), k, false, true)
    ensures ShiftedBy(Bits(m, Negated(a)), Bits(m, Negated(curr)), k, false, false)
  {
    forall i | 0 <= i < |a| ensures Bits(m, Negated(a))[i] == !Bits(m, a)[i] && Bits(m, Negated(curr))[i] == !Bits(m, curr)[i] {
    }
  }

  lemma NegatedSame(m: Valuation, a: seq<Lit>, b: seq<Lit>)
    requires Bits(m, a) == Bits(m, b)
    ensures Bits(m, Negated(a)) == Bits(m, Negated(b))
  {
    assert |a| == |b|;
    forall i | 0 <= i < |a| ensures Bits(m, Negated(a))[i] == Bits(m, Negated(b))[i] {
      assert Bits(m, a)[i] == Bits(m, b)[i];
    }
  }

  // ---------- division ----------

  lemma SameVal(m: Valuation, a: seq<Lit>, b: seq<Lit>)
    requires Bits(m, a) == Bits(m, b)
    ensures Val(m, a) == Val(m, b)
  {
  }

  lemma OneLitsValue(m: Valuation, n: nat, t: Lit)
    requires Holds(m, t)
    ensures Val(m, OneLits(n, t)) == if n == 0 then 0 else 1
    ensures Val(m, Repeat(n, t)) == Pow2(n) - 1
  {
    OneBits(m, OneLits(n, t));
    TrueBits(m, Repeat(n, t));
  }

  lemma EmptyDivision(a: seq<Lit>, b: seq<Lit>)
    requires a == [] && b == []
    ensures forall m: Valuation :: Val(m, []) == BvUdiv(Val(m, a), Val(m, b), 0) && Val(m, []) == BvUrem(Val(m, a), Val(m, b), 0)
  {
    forall m: Valuation ensures Val(m, []) == BvUdiv(Val(m, a), Val(m, b), 0) && Val(m, []) == BvUrem(Val(m, a), Val(m, b), 0) {
      EmptyVal(m);
    }
  }

  /** Shifting a bit into the low end of the remainder, the top bit falling out. */
  lemma ShiftIn(m: Valuation, bit: Lit, r: seq<Lit>, low: seq<Lit>)
    requires r != [] && low == [bit] + r[..|r| - 1]
    ensures Val(m, low) == (Bit(Holds(m, bit)) + 2 * Val(m, r)) % Pow2(|r|)
    ensures Holds(m, r[|r| - 1]) <==> Bit(Holds(m, bit)) + 2 * Val(m, r) >= Pow2(|r|)
  {
    hide *;
    ShiftInSum(m, bit, r);
    TopOut(Val(m, low), Pow2(|r|), Holds(m, r[|r| - 1]), Bit(Holds(m, bit)) + 2 * Val(m, r));
  }

  lemma ShiftInSum(m: Valuation, bit: Lit, r: seq<Lit>)
    requires r != []
    ensures Bit(Holds(m, bit)) + 2 * Val(m, r) == Val(m, [bit] + r[..|r| - 1]) + Bit(Holds(m, r[|r| - 1])) * Pow2(|r|)
    ensures Val(m, [bit] + r[..|r| - 1]) < Pow2(|r|)
  {
    hide Val, Bits, Holds, Pow2;
    var n := |r| - 1;
    var low := [bit] + r[..n];
    assert |low| == |r|;
    ValCons(m, bit, r[..n]);
    ValLast(m, r);
    Pow2Next(n);
    Doubled(Val(m, r[..n]), Holds(m, r[n]), Pow2(n), Pow2(|r|));
  }

  lemma Pow2Next(n: nat)
    ensures Pow2(n + 1) == 2 * Pow2(n)
  {
  }

  lemma Doubled(low: nat, top: bool, half: nat, p: nat)
    requires p == 2 * half
    ensures 2 * (low + Bit(top) * half) == 2 * low + Bit(top) * p
  {
  }

  lemma ValCons(m: Valuation, l: Lit, a: seq<Lit>)
    ensures Val(m, [l] + a) == Bit(Holds(m, l)) + 2 * Val(m, a)
  {
    assert Bits(m, [l] + a) == [Holds(m, l)] + Bits(m, a);
    ValueCons(Holds(m, l), Bits(m, a));
  }

  lemma ValLast(m: Valuation, a: seq<Lit>)
    requires a != []
    ensures Val(m, a) == Val(m, a[..|a| - 1]) + Bit(Holds(m, a[|a| - 1])) * Pow2(|a| - 1)
  {
    assert a == a[..|a| - 1] + [a[|a| - 1]];
    ValAppend(m, a[..|a| - 1], a[|a| - 1]);
  }

  lemma TopOut(low: nat, p: nat, top: bool, x: nat)
    requires low < p && x == low + Bit(top) * p
    ensures x % p == low && (top <==> x >= p)
  {
    ModUnique(x, p, Bit(top), low);
  }

  /** The bits of the dividend from `i` up are divided: `q` holds their quotient and `r` their
      remainder, which stays below the divisor. */
  ghost predicate Dividing(m: Valuation, a: seq<Lit>, b: seq<Lit>, i: nat, q: seq<Lit>, r: seq<Lit>)
    requires i <= |a|
  {
    Val(m, b) > 0 ==> Val(m, a[i..]) == Val(m, q) * Val(m, b) + Val(m, r) && Val(m, r) < Val(m, b)
  }

  lemma DividingStart(m: Valuation, a: seq<Lit>, b: seq<Lit>, r: seq<Lit>)
    requires forall i :: 0 <= i < |r| ==> !Holds(m, r[i])
    ensures Dividing(m, a, b, |a|, [], r)
  {
    FalseBits(m, r);
    EmptyVal(m);
    assert a[|a|..] == [];
    assert 0 * Val(m, b) == 0;
  }

  /** What a step leaves of the shifted remainder `x`, with the bit that falls out forcing the subtraction. */
  ghost predicate Restored(x: nat, p: nat, b: nat, sub: bool, r': nat) {
    p > 0 && (sub <==> x >= p || x % p >= b) && r' == if sub then (x % p - b) % p else x % p
  }

  lemma DividingStep(m: Valuation, a: seq<Lit>, b: seq<Lit>, i: nat, q: seq<Lit>, r: seq<Lit>, doSub: Lit, r': seq<Lit>)
    requires i < |a| && |b| == |r| && Dividing(m, a, b, i + 1, q, r)
    requires Restored(Bit(Holds(m, a[i])) + 2 * Val(m, r), Pow2(|r|), Val(m, b), Holds(m, doSub), Val(m, r'))
    ensures Dividing(m, a, b, i, [doSub] + q, r')
  {
    hide Value, Pow2, Bits, Restored;
    if Val(m, b) > 0 {
      assert a[i..] == [a[i]] + a[i + 1..];
      ValCons(m, a[i], a[i + 1..]);
      ValCons(m, doSub, q);
      RestoringStep(Val(m, a[i + 1..]), Val(m, q), Val(m, r), Val(m, b), Holds(m, a[i]), Pow2(|r|), Holds(m, doSub), Val(m, r'));
    }
  }

  /** One step of restoring division on numbers. */
  lemma RestoringStep(a: nat, q: nat, r: nat, b: nat, bit: bool, p: nat, sub: bool, r': nat)
    requires 0 < b < p && a == q * b + r && r < b
    requires Restored(Bit(bit) + 2 * r, p, b, sub, r')
    ensures Bit(bit) + 2 * a == (Bit(sub) + 2 * q) * b + r' && r' < b
  {
    RestoredIs(Bit(bit) + 2 * r, p, b, sub, r');
    Quotients(q, b, sub);
  }

  /** Although the arithmetic is modulo `p`, the remainder is that of the unbounded numbers. */
  lemma RestoredIs(x: nat, p: nat, b: nat, sub: bool, r': nat)
    requires 0 < b < p && x < 2 * b && Restored(x, p, b, sub, r')
    ensures (sub <==> x >= b) && r' == if sub then x - b else x
  {
    if x >= p {
      ModUnique(x, p, 1, x - p);
      ModUnique(x % p - b, p, -1, x - b);
    } else {
      ModUnique(x, p, 0, x);
      if sub { ModUnique(x - b, p, 0, x - b); }
    }
  }

  lemma Quotients(q: nat, b: nat, sub: bool)
    ensures (Bit(sub) + 2 * q) * b == Bit(sub) * b + 2 * (q * b)
    ensures Bit(sub) * b == if sub then b else 0
  {
  }

  lemma DivisionResult(m: Valuation, a: seq<Lit>, b: seq<Lit>, q: seq<Lit>, r: seq<Lit>, trueL: Lit, isZero: Lit,
                       finalQ: seq<Lit>, finalR: seq<Lit>)
    requires |a| == |b| == |q| == |r| && Dividing(m, a, b, 0, q, r) && Holds(m, trueL)
    requires Holds(m, isZero) <==> Val(m, b) == 0
    requires Bits(m, finalQ) == if Holds(m, isZero) then Bits(m, Repeat(|a|, trueL)) else Bits(m, q)
    requires Bits(m, finalR) == if Holds(m, isZero) then Bits(m, a) else Bits(m, r)
    ensures Val(m, finalQ) == BvUdiv(Val(m, a), Val(m, b), |a|)
    ensures Val(m, finalR) == BvUrem(Val(m, a), Val(m, b), |a|)
  {
    assert a[0..] == a;
    SameVal(m, finalQ, if Holds(m, isZero) then Repeat(|a|, trueL) else q);
    SameVal(m, finalR, if Holds(m, isZero) then a else r);
    if Val(m, b) == 0 {
      TrueBits(m, Repeat(|a|, trueL));
    } else {
      ModUnique(Val(m, a), Val(m, b), Val(m, q), Val(m, r));
    }
  }

  function BvAbs(x: nat, w: nat): nat
    requires w > 0 && InRange(x, w)
  {
    if Negative(x, w) then BvNeg(x, w) else x
  }

  /** The negation of zero and the double negation, within the width. */
  lemma NegFacts(x: nat, w: nat)
    requires w > 0 && InRange(x, w)
    ensures Neg(x, w) == BvNeg(x, w) && BvNeg(BvNeg(x, w), w) == x
    ensures BvNeg(x, w) == 0 <==> x == 0
    ensures !Negative(0, w) && Neg(Pow2(w) - 1, w) == 1
  {
    NegInRange(x, w);
    NegInRange(Pow2(w) - 1, w);
  }

  lemma SdivResult(s: nat, t: nat, q: nat, w: nat)
    requires w > 0 && InRange(s, w) && InRange(t, w) && q == BvUdiv(BvAbs(s, w), BvAbs(t, w), w) && InRange(q, w)
    ensures BvSdiv(s, t, w) ==
      if t == 0 then (if Negative(s, w) then 1 else Pow2(w) - 1)
      else if Negative(s, w) != Negative(t, w) then BvNeg(q, w) else q
  {
    NegFacts(s, w);
    NegFacts(t, w);
    NegFacts(q, w);
  }

  lemma SremResult(s: nat, t: nat, r: nat, w: nat)
    requires w > 0 && InRange(s, w) && InRange(t, w) && r == BvUrem(BvAbs(s, w), BvAbs(t, w), w) && InRange(r, w)
    ensures BvSrem(s, t, w) == if t == 0 then s else if Negative(s, w) then BvNeg(r, w) else r
  {
    NegFacts(s, w);
    NegFacts(t, w);
    NegFacts(r, w);
    if t == 0 { NegFacts(BvNeg(s, w), w); }
  }

  lemma SmodResult(s: nat, t: nat, w: nat)
    requires w > 0 && InRange(s, w) && InRange(t, w)
    ensures var rem := BvSrem(s, t, w);
      BvSmod(s, t, w) ==
        if t == 0 then s
        else if rem == 0 then 0
        else if Negative(s, w) != Negative(t, w) then BvAdd(rem, t, w) else rem
  {
    var u := BvUrem(BvAbs(s, w), BvAbs(t, w), w);
    NegFacts(s, w);
    NegFacts(t, w);
    UremInRange(BvAbs(s, w), BvAbs(t, w), w);
    NegFacts(u, w);
    SremResult(s, t, u, w);
    if t == 0 && Negative(s, w) {
      ModUnique(s, Pow2(w), 0, s);
    }
  }

  lemma UremInRange(x: nat, y: nat, w: nat)
    requires InRange(x, w) && InRange(y, w)
    ensures InRange(BvUrem(x, y, w), w)
  {
  }
}
