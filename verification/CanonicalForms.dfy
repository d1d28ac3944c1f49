/** What the canonicalizer leaves: no pair that cancels or collapses and ordered arguments, as long as
    De Morgan's laws were not needed; and a term where they were. */
module CanonicalForms {
  import opened MbaTerms
  import opened MbaCanonicalizer

  /** A strict total order on terms, as their ids are. */
  ghost predicate StrictOrder(before: (Term, Term) -> bool) {
    && (forall a, b :: before(a, b) ==> !before(b, a))
    && (forall a, b :: a == b || before(a, b) || before(b, a))
  }

  ghost function NormalizeAll(args: seq<Term>, before: (Term, Term) -> bool): (r: seq<Term>)
    requires forall k :: 0 <= k < |args| ==> WellSorted(args[k])
    ensures |r| == |args|
  {
    seq(|args|, k requires 0 <= k < |args| => Normalize(args[k], before))
  }

  lemma NormalizeIs(t: Term, before: (Term, Term) -> bool)
    requires WellSorted(t)
    ensures forall k :: 0 <= k < |t.args| ==> WellSorted(t.args[k])
    ensures var args := Ordered(t.op, NormalizeAll(t.args, before), before);
      if t.op.BvNot? then
        |args| == 1 && WellSorted(args[0]) && args[0].sort == t.sort && t.sort.BitVec? && Normalize(t, before) == Negated(args[0], t.sort, before)
      else Normalize(t, before) == Rebuilt(t.op, args, t.sort)
  {
    hide Count, Size, WellSorted, Negated, Rebuilt;
    SortedFacts(t);
    assert NormalizeAll(t.args, before) == seq(|t.args|, k requires 0 <= k < |t.args| => Normalize(t.args[k], before));
  }

  // ---------- the order of two arguments ----------

  lemma SwappedSorted(op: Op, a: Term, b: Term, s: Sort)
    requires Commutative(op) && WellSorted(Term(op, [a, b], s))
    ensures WellSorted(Term(op, [b, a], s)) && WellSorted(a) && WellSorted(b)
  {
    var t, u := Term(op, [a, b], s), Term(op, [b, a], s);
    assert WellSorted(t.args[0]) && WellSorted(t.args[1]);
    assert u.args[0] == b && u.args[1] == a;
  }

  /** Exchanging the arguments of a commutative operator makes no difference. */
  lemma SwappedSame(op: Op, a: Term, b: Term, s: Sort, before: (Term, Term) -> bool)
    requires Commutative(op) && StrictOrder(before) && WellSorted(Term(op, [a, b], s))
    ensures WellSorted(Term(op, [b, a], s))
    ensures Normalize(Term(op, [a, b], s), before) == Normalize(Term(op, [b, a], s), before)
  {
    hide WellSorted, Rebuilt, Normalize;
    SwappedSorted(op, a, b, s);
    NormalizeIs(Term(op, [a, b], s), before);
    NormalizeIs(Term(op, [b, a], s), before);
    var x, y := Normalize(a, before), Normalize(b, before);
    assert NormalizeAll([a, b], before) == [x, y] && NormalizeAll([b, a], before) == [y, x];
  }

  // ---------- reduced terms ----------

  /** The node is no pair that cancels or collapses, no double negation, and its arguments are in order. */
  ghost predicate NodeReduced(t: Term, before: (Term, Term) -> bool) {
    && (|t.args| == 2 && (t.op.BvXor? || t.op.BvSub? || t.op.BvAnd? || t.op.BvOr?) ==> t.args[0] != t.args[1])
    && (t.op.BvNeg? && |t.args| > 0 ==> !t.args[0].op.BvNeg?)
    && (t.op.BvNot? && |t.args| > 0 ==> !t.args[0].op.BvNot?)
    && (Commutative(t.op) && |t.args| == 2 ==> !before(t.args[1], t.args[0]))
  }

  ghost predicate Reduced(t: Term, before: (Term, Term) -> bool) {
    NodeReduced(t, before) && forall k :: 0 <= k < |t.args| ==> Reduced(t.args[k], before)
  }

  /** De Morgan's laws do not apply on the way: no negation meets a normalized conjunction or disjunction. */
  ghost predicate Quiet(t: Term, before: (Term, Term) -> bool)
    requires WellSorted(t)
  {
    SortedFacts(t);
    && (t.op.BvNot? ==> !Normalize(t.args[0], before).op.BvAnd? && !Normalize(t.args[0], before).op.BvOr?)
    && forall k :: 0 <= k < |t.args| ==> Quiet(t.args[k], before)
  }

  lemma RebuiltReduced(op: Op, args: seq<Term>, s: Sort, before: (Term, Term) -> bool)
    requires StrictOrder(before) && WellSorted(Term(op, Ordered(op, args, before), s)) && !op.BvNot?
    requires forall k :: 0 <= k < |args| ==> Reduced(args[k], before)
    ensures Reduced(Rebuilt(op, Ordered(op, args, before), s), before)
  {
    hide WellSorted;
    var sorted := Ordered(op, args, before);
    SortedFacts(Term(op, sorted, s));
    if op.BvNeg? { SortedFacts(sorted[0]); }
    assert forall k :: 0 <= k < |sorted| ==> Reduced(sorted[k], before);
  }

  /** The result has none of the pairs that the rules remove, and its arguments are in order. */
  lemma {:induction false} NormalizeReduced(t: Term, before: (Term, Term) -> bool)
    requires WellSorted(t) && StrictOrder(before) && Quiet(t, before)
    ensures Reduced(Normalize(t, before), before)
    decreases t
  {
    hide WellSorted, StrictOrder, Reduced, Normalize, Rebuilt, Negated;
    SortedFacts(t);
    NormalizeIs(t, before);
    var args := NormalizeAll(t.args, before);
    forall k | 0 <= k < |t.args| ensures Reduced(args[k], before) {
      NormalizeReduced(t.args[k], before);
    }
    if t.op.BvNot? {
      assert Ordered(t.op, args, before) == args && args[0] == Normalize(t.args[0], before);
      NegatedReduced(args[0], t.sort, before);
    } else {
      NormalizedSorted(t, before);
      RebuiltReduced(t.op, args, t.sort, before);
    }
  }

  lemma NegatedReduced(inner: Term, s: Sort, before: (Term, Term) -> bool)
    requires WellSorted(inner) && inner.sort == s && s.BitVec? && Reduced(inner, before) && !inner.op.BvAnd? && !inner.op.BvOr?
    ensures Reduced(Negated(inner, s, before), before)
  {
    hide WellSorted;
    SortedFacts(inner);
  }

  lemma NormalizedSorted(t: Term, before: (Term, Term) -> bool)
    requires WellSorted(t) && forall k :: 0 <= k < |t.args| ==> WellSorted(t.args[k])
    ensures WellSorted(Term(t.op, Ordered(t.op, NormalizeAll(t.args, before), before), t.sort))
  {
    hide WellSorted, Count;
    assert Replaces(NormalizeAll(t.args, before), t.args);
    ReplacedSorted(t, NormalizeAll(t.args, before), before);
  }

  // ---------- where De Morgan's laws are needed ----------

  ghost predicate WordVar(v: Term, s: Sort) { v.op.Var? && WellSorted(v) && v.sort == s && s.BitVec? }

  lemma NormalizeLeaf(v: Term, s: Sort, before: (Term, Term) -> bool)
    requires WordVar(v, s)
    ensures Normalize(v, before) == v
    ensures WellSorted(NotOf(v, s)) && Normalize(NotOf(v, s), before) == NotOf(v, s)
    ensures WellSorted(NotOf(NotOf(v, s), s)) && Normalize(NotOf(NotOf(v, s), s), before) == v
  {
    hide Normalize, WellSorted;
    SortedFacts(v);
    LeafArgs(v);
    NormalizeIs(v, before);
    SortedIntro(BvNot, v, v, s);
    var n := NotOf(v, s);
    NormalizeIs(n, before);
    assert NormalizeAll(n.args, before) == [v];
    SortedIntro(BvNot, n, n, s);
    NormalizeIs(NotOf(n, s), before);
    assert NormalizeAll(NotOf(n, s).args, before) == [n];
    assert Negated(n, s, before) == n.args[0];
  }

  lemma LeafArgs(v: Term)
    requires WellSorted(v) && v.op.Var?
    ensures v.args == [] && v == Term(v.op, [], v.sort)
  {
  }

  /** A conjunction or disjunction of normalized words. */
  lemma NormalizePair(op: Op, a: Term, b: Term, s: Sort, before: (Term, Term) -> bool)
    requires (op.BvAnd? || op.BvOr?) && s.BitVec? && WellSorted(a) && WellSorted(b) && a.sort == s && b.sort == s
    requires Normalize(a, before) != Normalize(b, before)
    ensures WellSorted(Term(op, [a, b], s))
    ensures Normalize(Term(op, [a, b], s), before) ==
      var x, y := Normalize(a, before), Normalize(b, before);
      if before(y, x) then Term(op, [y, x], s) else Term(op, [x, y], s)
  {
    hide Normalize, WellSorted;
    SortedIntro(op, a, b, s);
    NormalizeIs(Term(op, [a, b], s), before);
    assert NormalizeAll([a, b], before) == [Normalize(a, before), Normalize(b, before)];
  }

  /** A negation over a word that is normalized to a conjunction or disjunction. */
  lemma NormalizeNotPair(t: Term, op: Op, a: Term, b: Term, s: Sort, before: (Term, Term) -> bool)
    requires (op.BvAnd? || op.BvOr?) && s.BitVec? && WellSorted(t) && t.sort == s && Normalize(t, before) == Term(op, [a, b], s)
    ensures WellSorted(a) && WellSorted(b) && a.sort == s && b.sort == s
    ensures WellSorted(NotOf(a, s)) && WellSorted(NotOf(b, s)) && WellSorted(NotOf(t, s))
    ensures Normalize(NotOf(t, s), before) ==
      Term(if op.BvAnd? then BvOr else BvAnd, [Normalize(NotOf(a, s), before), Normalize(NotOf(b, s), before)], s)
  {
    hide Normalize, WellSorted;
    var inner := Normalize(t, before);
    SortedFacts(inner);
    assert inner.args[0] == a && inner.args[1] == b;
    SortedIntro(BvNot, a, a, s);
    SortedIntro(BvNot, b, b, s);
    SortedIntro(BvNot, t, t, s);
    NormalizeIs(NotOf(t, s), before);
    assert NormalizeAll(NotOf(t, s).args, before) == [inner];
    NegatedPair(inner, s, before);
  }

  lemma NegatedPair(inner: Term, s: Sort, before: (Term, Term) -> bool)
    requires WellSorted(inner) && inner.sort == s && s.BitVec? && (inner.op.BvAnd? || inner.op.BvOr?)
    ensures |inner.args| == 2 && WellSorted(NotOf(inner.args[0], s)) && WellSorted(NotOf(inner.args[1], s))
    ensures Negated(inner, s, before) ==
      Term(if inner.op.BvAnd? then BvOr else BvAnd,
           [Normalize(NotOf(inner.args[0], s), before), Normalize(NotOf(inner.args[1], s), before)], s)
  {
    hide Normalize, WellSorted, Count, Size;
    SortedFacts(inner);
    SortedIntro(BvNot, inner.args[0], inner.args[1], s);
    SortedIntro(BvNot, inner.args[1], inner.args[0], s);
  }

  function Pair(op: Op, a: Term, b: Term, s: Sort): Term { Term(op, [a, b], s) }

  /** `~(~(u | v) & (~v & ~u))`: the two conjuncts differ when they are compared, and not any more once
      De Morgan's laws have gone through them. What they become is not looked at again, so `x | x` is
      left, with `v | u` for `x` although `u` comes first. */
  lemma DuplicateLeft(u: Term, v: Term, s: Sort, before: (Term, Term) -> bool)
    requires WordVar(u, s) && WordVar(v, s) && u != v
    requires before(u, v) && !before(v, u) && before(NotOf(v, s), NotOf(u, s)) && !before(NotOf(u, s), NotOf(v, s))
    ensures
      var t := NotOf(Pair(BvAnd, NotOf(Pair(BvOr, u, v, s), s), Pair(BvAnd, NotOf(v, s), NotOf(u, s), s), s), s);
      var x := Pair(BvOr, v, u, s);
      WellSorted(t) && Normalize(t, before) == Pair(BvOr, x, x, s) && !Reduced(Normalize(t, before), before) && !Reduced(x, before)
  {
    hide Normalize, WellSorted;
    var p, q := NotOf(u, s), NotOf(v, s);
    NormalizeLeaf(u, s, before);
    NormalizeLeaf(v, s, before);
    // ~(u | v) becomes ~u & ~v
    NormalizePair(BvOr, u, v, s, before);
    NormalizeNotPair(Pair(BvOr, u, v, s), BvOr, u, v, s, before);
    // ~v & ~u stays
    NormalizePair(BvAnd, q, p, s, before);
    // negating either of them gives v | u
    NormalizePair(BvAnd, p, q, s, before);
    NormalizeNotPair(Pair(BvAnd, p, q, s), BvAnd, q, p, s, before);
    NormalizeNotPair(Pair(BvAnd, q, p, s), BvAnd, q, p, s, before);
    // and so does negating their conjunction, in whichever order
    var a, b := NotOf(Pair(BvOr, u, v, s), s), Pair(BvAnd, q, p, s);
    assert Pair(BvAnd, p, q, s).args != Pair(BvAnd, q, p, s).args;
    NormalizePair(BvAnd, a, b, s, before);
    if before(Pair(BvAnd, q, p, s), Pair(BvAnd, p, q, s)) {
      NormalizeNotPair(Pair(BvAnd, a, b, s), BvAnd, Pair(BvAnd, q, p, s), Pair(BvAnd, p, q, s), s, before);
    } else {
      NormalizeNotPair(Pair(BvAnd, a, b, s), BvAnd, Pair(BvAnd, p, q, s), Pair(BvAnd, q, p, s), s, before);
    }
    var x := Pair(BvOr, v, u, s);
    assert !NodeReduced(Pair(BvOr, x, x, s), before) && !NodeReduced(x, before);
  }
}
