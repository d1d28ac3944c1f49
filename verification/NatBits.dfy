/** Bitwise operations on naturals of any size, and what they do to the bits of a word. */
module NaturalBits {
  import opened BitVectors

  datatype Gate = AndGate | OrGate | XorGate {
    predicate On(x: bool, y: bool) {
      match this
      case AndGate => x && y
      case OrGate => x || y
      case XorGate => x != y
    }
  }

  /** The gate applied to each pair of binary digits. */
  function Bitwise(g: Gate, a: nat, b: nat): nat
    decreases a + b
  {
    if a == 0 && b == 0 then 0 else 2 * Bitwise(g, a / 2, b / 2) + Bit(g.On(a % 2 == 1, b % 2 == 1))
  }

  function Mask(w: nat): nat { Pow2(w) - 1 }

  lemma BitwiseStep(g: Gate, a: nat, b: nat)
    ensures Bitwise(g, a, b) == 2 * Bitwise(g, a / 2, b / 2) + Bit(g.On(a % 2 == 1, b % 2 == 1))
  {
  }

  lemma Halves(b: bool, v: nat)
    ensures (Bit(b) + 2 * v) / 2 == v && ((Bit(b) + 2 * v) % 2 == 1 <==> b)
  {
  }

  /** One more digit. */
  lemma BitwiseCons(g: Gate, x: bool, y: bool, u: nat, v: nat)
    ensures Bitwise(g, Bit(x) + 2 * u, Bit(y) + 2 * v) == Bit(g.On(x, y)) + 2 * Bitwise(g, u, v)
  {
    BitwiseStep(g, Bit(x) + 2 * u, Bit(y) + 2 * v);
    Halves(x, u);
    Halves(y, v);
  }

  lemma NoBits(g: Gate)
    ensures Value([]) == 0 && Bitwise(g, 0, 0) == 0
  {
  }

  /** On words of one width the operation works bit by bit. */
  lemma {:induction false} BitwiseValue(g: Gate, a: seq<bool>, b: seq<bool>, r: seq<bool>)
    requires |a| == |b| == |r| && forall k :: 0 <= k < |r| ==> r[k] == g.On(a[k], b[k])
    ensures Value(r) == Bitwise(g, Value(a), Value(b))
    decreases |a|
  {
    hide Value, Bitwise, Pow2, Bit;
    NoBits(g);
    if a != [] {
      assert a == [a[0]] + a[1..] && b == [b[0]] + b[1..] && r == [r[0]] + r[1..];
      BitwiseValue(g, a[1..], b[1..], r[1..]);
      ValueCons(a[0], a[1..]);
      ValueCons(b[0], b[1..]);
      ValueCons(r[0], r[1..]);
      BitwiseCons(g, a[0], b[0], Value(a[1..]), Value(b[1..]));
    }
  }

  lemma {:induction false} AndZero(v: nat)
    ensures Bitwise(AndGate, v, 0) == 0
    decreases v
  {
    if v > 0 { AndZero(v / 2); }
  }

  lemma MaskHalf(w: nat)
    requires w > 0
    ensures Mask(w) / 2 == Mask(w - 1) && Mask(w) % 2 == 1
  {
  }

  lemma ModDouble(v: nat, p: nat)
    requires p > 0
    ensures v % (2 * p) == 2 * ((v / 2) % p) + v % 2
  {
    ModSplit(v / 2, p);
    var q := v / 2 / p;
    assert v == 2 * (v / 2) + v % 2;
    assert 2 * (q * p) == q * (2 * p);
    ModUnique(v, 2 * p, q, 2 * ((v / 2) % p) + v % 2);
  }

  /** Masking keeps the low digits. */
  lemma {:induction false} Masked(v: nat, w: nat)
    ensures Bitwise(AndGate, v, Mask(w)) == v % Pow2(w)
    decreases w
  {
    if w == 0 {
      AndZero(v);
    } else {
      Masked(v / 2, w - 1);
      MaskHalf(w);
      BitwiseStep(AndGate, v, Mask(w));
      ModDouble(v, Pow2(w - 1));
    }
  }

  lemma {:induction false} OrZero(v: nat)
    ensures Bitwise(OrGate, 0, v) == v
    decreases v
  {
    if v > 0 { OrZero(v / 2); }
  }

  /** Numbers without a common digit: the union is the sum. */
  lemma {:induction false} OrDisjoint(hi: nat, lo: nat, k: nat)
    requires lo < Pow2(k)
    ensures Bitwise(OrGate, hi * Pow2(k), lo) == hi * Pow2(k) + lo
    decreases k
  {
    if k == 0 {
      OrComm(hi, 0);
      OrZero(hi);
    } else {
      OrDisjoint(hi, lo / 2, k - 1);
      var p := Pow2(k - 1);
      TimesDouble(hi, p);
      BitwiseStep(OrGate, hi * Pow2(k), lo);
      Halves(false, hi * p);
    }
  }

  lemma TimesDouble(hi: nat, p: nat)
    ensures hi * (2 * p) == 2 * (hi * p)
  {
  }

  lemma {:induction false} OrComm(a: nat, b: nat)
    ensures Bitwise(OrGate, a, b) == Bitwise(OrGate, b, a)
    decreases a + b
  {
    if a + b > 0 { OrComm(a / 2, b / 2); }
  }
}
