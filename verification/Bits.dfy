/** Unsigned values of bit sequences (least significant bit first) and the arithmetic of
    fixed-size bit-vectors, as the SMT-LIB theory FixedSizeBitVectors and the logic QF_BV
    define it. */
module BitVectors {

  function Pow2(n: nat): (p: nat)
    ensures p >= 1
  {
    if n == 0 then 1 else 2 * Pow2(n - 1)
  }

  function Bit(b: bool): nat { if b then 1 else 0 }

  /** The value of the bits, the last one being the most significant. */
  function Value(bits: seq<bool>): (v: nat)
    ensures v < Pow2(|bits|)
  {
    if bits == [] then 0
    else
      var n := |bits| - 1;
      Value(bits[..n]) + if bits[n] then Pow2(n) else 0
  }

  lemma ValueAppend(bits: seq<bool>, b: bool)
    ensures Value(bits + [b]) == Value(bits) + if b then Pow2(|bits|) else 0
  {
    assert (bits + [b])[..|bits|] == bits;
  }

  lemma BitTimes(b: bool, p: nat)
    ensures Bit(b) * p == if b then p else 0
  {
  }

  /** Prepending a bit doubles the rest. */
  lemma {:induction false} ValueCons(b: bool, bits: seq<bool>)
    ensures Value([b] + bits) == Bit(b) + 2 * Value(bits)
  {
    if bits == [] {
      assert [b] + bits == [] + [b];
      ValueAppend([], b);
    } else {
      var n := |bits| - 1;
      assert [b] + bits == ([b] + bits[..n]) + [bits[n]];
      ValueAppend([b] + bits[..n], bits[n]);
      ValueCons(b, bits[..n]);
    }
  }

  /** Splitting at position `k`. */
  lemma {:induction false} ValueSplit(lo: seq<bool>, hi: seq<bool>)
    ensures Value(lo + hi) == Value(lo) + Pow2(|lo|) * Value(hi)
    decreases |hi|
  {
    if hi == [] {
      assert lo + hi == lo;
    } else {
      var n := |hi| - 1;
      assert lo + hi == (lo + hi[..n]) + [hi[n]];
      ValueAppend(lo + hi[..n], hi[n]);
      ValueSplit(lo, hi[..n]);
      Pow2Add(|lo|, n);
      var p, q, v := Pow2(|lo|), Pow2(n), Value(hi[..n]);
      Distribute(p, v, if hi[n] then q else 0);
    }
  }

  lemma Distribute(p: int, x: int, y: int)
    ensures p * (x + y) == p * x + p * y
  {
  }

  lemma MulAssoc(p: int, b: int, q: int)
    ensures p * (b * q) == b * (p * q)
  {
  }

  lemma {:induction false} Pow2Add(m: nat, n: nat)
    ensures Pow2(m + n) == Pow2(m) * Pow2(n)
  {
    if n > 0 {
      Pow2Add(m, n - 1);
      assert Pow2(m + n) == 2 * Pow2(m + n - 1);
      MulAssoc(Pow2(m), 2, Pow2(n - 1));
    }
  }

  lemma {:induction false} Pow2Mono(m: nat, n: nat)
    requires m <= n
    ensures Pow2(m) <= Pow2(n)
  {
    if m < n { Pow2Mono(m, n - 1); }
  }

  function Fill(n: nat, b: bool): (r: seq<bool>)
    ensures |r| == n && forall i :: 0 <= i < n ==> r[i] == b
  {
    seq(n, _ => b)
  }

  lemma {:induction false} ValueAllFalse(bits: seq<bool>)
    ensures Value(bits) == 0 <==> forall i :: 0 <= i < |bits| ==> !bits[i]
  {
    if bits != [] {
      var n := |bits| - 1;
      ValueAllFalse(bits[..n]);
      assert bits == bits[..n] + [bits[n]];
    }
  }

  lemma {:induction false} ValueAllTrue(bits: seq<bool>)
    requires forall i :: 0 <= i < |bits| ==> bits[i]
    ensures Value(bits) == Pow2(|bits|) - 1
  {
    if bits != [] { ValueAllTrue(bits[..|bits| - 1]); }
  }

  /** Complementing every bit. */
  lemma {:induction false} ValueNot(bits: seq<bool>, nots: seq<bool>)
    requires |nots| == |bits| && forall i :: 0 <= i < |bits| ==> nots[i] == !bits[i]
    ensures Value(nots) == Pow2(|bits|) - 1 - Value(bits)
  {
    if bits != [] {
      var n := |bits| - 1;
      ValueNot(bits[..n], nots[..n]);
    }
  }

  /** Equal values have equal bits. */
  lemma {:induction false} ValueInjective(a: seq<bool>, b: seq<bool>)
    requires |a| == |b|
    ensures Value(a) == Value(b) <==> a == b
  {
    if a != [] {
      var n := |a| - 1;
      ValueInjective(a[..n], b[..n]);
      assert a == a[..n] + [a[n]] && b == b[..n] + [b[n]];
      assert Value(a[..n]) < Pow2(n) && Value(b[..n]) < Pow2(n);
    }
  }

  /** The top bit says whether the value reaches half the range. */
  lemma TopBit(bits: seq<bool>)
    requires bits != []
    ensures bits[|bits| - 1] <==> Value(bits) >= Pow2(|bits| - 1)
  {
  }

  // ---------- SMT-LIB operations on values of width w ----------

  predicate InRange(x: nat, w: nat) { x < Pow2(w) }

  function BvNeg(x: nat, w: nat): (r: nat)
    requires InRange(x, w)
    ensures InRange(r, w)
  {
    if x == 0 then 0 else Pow2(w) - x
  }

  function BvAdd(x: nat, y: nat, w: nat): (r: nat)
    ensures InRange(r, w)
  {
    (x + y) % Pow2(w)
  }

  function BvSub(x: nat, y: nat, w: nat): (r: nat)
    ensures InRange(r, w)
  {
    (x - y) % Pow2(w)
  }

  function BvMul(x: nat, y: nat, w: nat): (r: nat)
    ensures InRange(r, w)
  {
    (x * y) % Pow2(w)
  }

  /** Division by zero yields all ones. */
  function BvUdiv(x: nat, y: nat, w: nat): nat { if y == 0 then Pow2(w) - 1 else x / y }

  /** Remainder by zero yields the dividend. */
  function BvUrem(x: nat, y: nat, w: nat): nat { if y == 0 then x else x % y }

  predicate Negative(x: nat, w: nat)
    requires w > 0
  {
    x >= Pow2(w - 1)
  }

  /** The two's complement reading. */
  function Signed(x: nat, w: nat): int
    requires w > 0
  {
    if Negative(x, w) then x - Pow2(w) else x
  }

  function BvShl(x: nat, y: nat, w: nat): nat { if y >= w then 0 else (x * Pow2(y)) % Pow2(w) }

  lemma QuotientNatural(x: nat, m: nat)
    requires m > 0
    ensures x / m >= 0
  {
  }

  lemma QuotientBelow(x: nat, m: nat)
    requires m > 0
    ensures 0 <= x / m <= x
  {
    QuotientNatural(x, m);
    ModSplit(x, m);
    TimesAtLeast(x / m, m);
  }

  lemma TimesAtLeast(q: nat, m: nat)
    requires m > 0
    ensures q <= q * m
  {
  }

  function BvLshr(x: nat, y: nat, w: nat): (r: nat)
    ensures r <= x
  {
    QuotientBelow(x, Pow2(y));
    if y >= w then 0 else x / Pow2(y)
  }

  /** The extension bvsdiv of QF_BV. */
  function BvSdiv(s: nat, t: nat, w: nat): nat
    requires w > 0 && InRange(s, w) && InRange(t, w)
  {
    if !Negative(s, w) && !Negative(t, w) then BvUdiv(s, t, w)
    else if Negative(s, w) && !Negative(t, w) then Neg(BvUdiv(BvNeg(s, w), t, w), w)
    else if !Negative(s, w) && Negative(t, w) then Neg(BvUdiv(s, BvNeg(t, w), w), w)
    else BvUdiv(BvNeg(s, w), BvNeg(t, w), w)
  }

  /** The extension bvsrem of QF_BV. */
  function BvSrem(s: nat, t: nat, w: nat): nat
    requires w > 0 && InRange(s, w) && InRange(t, w)
  {
    if !Negative(s, w) && !Negative(t, w) then BvUrem(s, t, w)
    else if Negative(s, w) && !Negative(t, w) then Neg(BvUrem(BvNeg(s, w), t, w), w)
    else if !Negative(s, w) && Negative(t, w) then BvUrem(s, BvNeg(t, w), w)
    else Neg(BvUrem(BvNeg(s, w), BvNeg(t, w), w), w)
  }

  /** The extension bvsmod of QF_BV. */
  function BvSmod(s: nat, t: nat, w: nat): nat
    requires w > 0 && InRange(s, w) && InRange(t, w)
  {
    var absS := if Negative(s, w) then BvNeg(s, w) else s;
    var absT := if Negative(t, w) then BvNeg(t, w) else t;
    var u := BvUrem(absS, absT, w);
    if u == 0 then u
    else if !Negative(s, w) && !Negative(t, w) then u
    else if Negative(s, w) && !Negative(t, w) then BvAdd(Neg(u, w), t, w)
    else if !Negative(s, w) && Negative(t, w) then BvAdd(u, t, w)
    else Neg(u, w)
  }

  /** Two's complement negation of any value, reduced to the width. */
  function Neg(x: nat, w: nat): (r: nat)
    ensures InRange(r, w)
  {
    (0 - x) % Pow2(w)
  }

  lemma NegInRange(x: nat, w: nat)
    requires InRange(x, w)
    ensures Neg(x, w) == BvNeg(x, w)
  {
    if x > 0 {
      ModUnique(0 - x, Pow2(w), -1, Pow2(w) - x);
    } else {
      ModUnique(0, Pow2(w), 0, 0);
    }
  }

  /** Euclidean division is unique. */
  lemma ModUnique(x: int, m: int, q: int, r: int)
    requires m > 0 && x == q * m + r && 0 <= r < m
    ensures x % m == r && x / m == q
  {
    DivModUnique(x, m, q, r, x / m, x % m);
  }

  lemma DivModUnique(x: int, m: int, q: int, r: int, q': int, r': int)
    requires m > 0 && x == q * m + r && x == q' * m + r' && 0 <= r < m && 0 <= r' < m
    ensures q == q' && r == r'
  {
    if q < q' { MulStep(q, q', m); }
    if q' < q { MulStep(q', q, m); }
  }

  lemma MulStep(x: int, y: int, m: int)
    requires x < y && m >= 0
    ensures x * m + m <= y * m
  {
    MulLe(x + 1, y, m);
    assert (x + 1) * m == x * m + m;
  }

  lemma MulLe(x: int, y: int, m: int)
    requires x <= y && m >= 0
    ensures x * m <= y * m
  {
  }

  // ---------- modular arithmetic ----------

  lemma ModSplit(x: int, m: int)
    requires m > 0
    ensures x == (x / m) * m + x % m && 0 <= x % m < m
  {
  }

  /** Adding a multiple of the modulus changes nothing. */
  lemma ModPlusMultiple(x: int, k: int, m: int)
    requires m > 0
    ensures (x + k * m) % m == x % m
  {
    ModSplit(x, m);
    assert (x / m + k) * m == (x / m) * m + k * m;
    ModUnique(x + k * m, m, x / m + k, x % m);
  }

  lemma ModAddMod(x: int, y: int, m: int)
    requires m > 0
    ensures (x % m + y) % m == (x + y) % m
  {
    ModSplit(x, m);
    ModPlusMultiple(x % m + y, x / m, m);
  }

  lemma {:induction false} Pow2Divides(n: nat, k: nat)
    requires n <= k
    ensures Pow2(k) == Pow2(n) * Pow2(k - n) && Pow2(k) % Pow2(n) == 0
  {
    Pow2Add(n, k - n);
    ModUnique(Pow2(k), Pow2(n), Pow2(k - n), 0);
  }

  lemma TimesPow2Vanishes(x: nat, k: nat, n: nat)
    requires n <= k
    ensures (x * Pow2(k)) % Pow2(n) == 0
  {
    hide Pow2;
    Pow2Divides(n, k);
    Regroup(x, Pow2(n), Pow2(k - n));
    ModUnique(x * Pow2(k), Pow2(n), x * Pow2(k - n), 0);
  }

  lemma Regroup(x: int, p: int, q: int)
    ensures x * (p * q) == (x * q) * p
    ensures (p * x) * q == x * (p * q)
  {
  }

  lemma SplitTimes(lo: int, hi: int, p: int, q: int)
    ensures (lo + p * hi) * q == hi * (p * q) + q * lo
  {
    assert (lo + p * hi) * q == lo * q + (p * hi) * q;
    Regroup(hi, p, q);
  }

  lemma QuotientOf(x: nat, p: nat, hi: nat, lo: nat)
    requires p > 0 && lo < p && x == lo + p * hi
    ensures x / p == hi && x % p == lo
  {
    assert p * hi == hi * p;
    ModUnique(x, p, hi, lo);
  }

  lemma BelowProduct(x: nat, p: nat, q: nat)
    requires x < p && q > 0
    ensures 0 <= q * x < p * q
  {
    MulStep(x, p, q);
  }

  lemma SmallDiv(x: nat, m: nat)
    requires x < m
    ensures x / m == 0
  {
    ModUnique(x, m, 0, x);
  }

  // ---------- shifting sequences of bits ----------

  function ShiftedUp(bits: seq<bool>, k: nat): (r: seq<bool>)
    requires k <= |bits|
    ensures |r| == |bits|
  {
    Fill(k, false) + bits[..|bits| - k]
  }

  function ShiftedDown(bits: seq<bool>, k: nat, fill: bool): (r: seq<bool>)
    requires k <= |bits|
    ensures |r| == |bits|
  {
    bits[k..] + Fill(k, fill)
  }

  lemma ShiftedUpValue(bits: seq<bool>, k: nat)
    requires k <= |bits|
    ensures Value(ShiftedUp(bits, k)) == (Value(bits) * Pow2(k)) % Pow2(|bits|)
  {
    hide Pow2, Value;
    var n := |bits|;
    var lo, hi := bits[..n - k], bits[n - k..];
    assert bits == lo + hi;
    ValueSplit(lo, hi);
    ValueSplit(Fill(k, false), lo);
    ValueAllFalse(Fill(k, false));
    Pow2Add(n - k, k);
    SplitTimes(Value(lo), Value(hi), Pow2(n - k), Pow2(k));
    BelowProduct(Value(lo), Pow2(n - k), Pow2(k));
    ModUnique(Value(bits) * Pow2(k), Pow2(n), Value(hi), Pow2(k) * Value(lo));
  }

  lemma ShiftedDownValue(bits: seq<bool>, k: nat)
    requires k <= |bits|
    ensures Value(ShiftedDown(bits, k, false)) == Value(bits) / Pow2(k)
  {
    hide Pow2, Value;
    var lo, hi := bits[..k], bits[k..];
    assert bits == lo + hi;
    ValueSplit(lo, hi);
    ValueSplit(hi, Fill(k, false));
    ValueAllFalse(Fill(k, false));
    QuotientOf(Value(bits), Pow2(k), Value(hi), Value(lo));
  }

  /** bvashr of FixedSizeBitVectors. */
  function BvAshr(x: nat, y: nat, w: nat): (r: nat)
    requires w > 0
    ensures InRange(x, w) ==> InRange(r, w)
  {
    if Negative(x, w) then Pow2(w) - 1 - BvLshr(Not(x, w), y, w) else BvLshr(x, y, w)
  }

  function Not(x: nat, w: nat): nat
  {
    if InRange(x, w) then Pow2(w) - 1 - x else 0
  }

  // ---------- bit sequences as words ----------

  function ToBits(v: nat, w: nat): (r: seq<bool>)
    requires v < Pow2(w)
    ensures |r| == w && Value(r) == v
    decreases w
  {
    if w == 0 then []
    else
      var rest := ToBits(v / 2, w - 1);
      ValueCons(v % 2 == 1, rest);
      [v % 2 == 1] + rest
  }

  function NotBits(a: seq<bool>): (r: seq<bool>)
    ensures |r| == |a| && forall k :: 0 <= k < |a| ==> r[k] == !a[k]
  {
    seq(|a|, k requires 0 <= k < |a| => !a[k])
  }

  function AndBits(a: seq<bool>, b: seq<bool>): (r: seq<bool>)
    requires |a| == |b|
    ensures |r| == |a| && forall k :: 0 <= k < |a| ==> r[k] == (a[k] && b[k])
  {
    seq(|a|, k requires 0 <= k < |a| => a[k] && b[k])
  }

  function OrBits(a: seq<bool>, b: seq<bool>): (r: seq<bool>)
    requires |a| == |b|
    ensures |r| == |a| && forall k :: 0 <= k < |a| ==> r[k] == (a[k] || b[k])
  {
    seq(|a|, k requires 0 <= k < |a| => a[k] || b[k])
  }

  function XorBits(a: seq<bool>, b: seq<bool>): (r: seq<bool>)
    requires |a| == |b|
    ensures |r| == |a| && forall k :: 0 <= k < |a| ==> r[k] == (a[k] != b[k])
  {
    seq(|a|, k requires 0 <= k < |a| => a[k] != b[k])
  }

  /** The `w` low bits of a number. */
  function LowBits(v: nat, w: nat): (r: seq<bool>)
    ensures |r| == w && Value(r) == v % Pow2(w)
    ensures InRange(v, w) ==> Value(r) == v
  {
    SmallMod(v, Pow2(w));
    ToBits(v % Pow2(w), w)
  }

  lemma SmallMod(v: nat, m: nat)
    requires m > 0
    ensures v < m ==> v % m == v
  {
    if v < m { ModUnique(v, m, 0, v); }
  }

  /** A sequence of bits is determined by its value. */
  lemma LowBitsOfValue(bits: seq<bool>, v: nat)
    requires Value(bits) == v
    ensures bits == LowBits(v, |bits|)
  {
    ValueInjective(bits, LowBits(v, |bits|));
  }
}
