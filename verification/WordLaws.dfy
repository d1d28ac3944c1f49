/** The operators on bit-vectors as laws on numbers: what the value of a term is, given the values of
    its arguments, without the sequences of bits. */
module WordLaws {
  import opened BinaryFormat
  import opened TermSemantics
  import BV = BitVectors

  /** Digit `k` of a number. */
  function Digit(v: nat, k: nat): nat { (v / BV.Pow2(k)) % 2 }

  /** The number that a word of width `w` stands for in two's complement. */
  function Twos(x: nat, w: nat): int
    requires w > 0
  {
    if x < BV.Pow2(w - 1) then x else x - BV.Pow2(w)
  }

  function Abs(x: int): nat { if x < 0 then -x else x }

  /** The quotient towards zero. */
  function Quotient(s: int, t: int): int
    requires t != 0
  {
    if (s < 0) == (t < 0) then Abs(s) / Abs(t) else -(Abs(s) / Abs(t))
  }

  // ---------- the laws ----------

  /** Rotation by `k` digits towards the high end, and towards the low end. */
  function RotatedUp(x: nat, k: nat, w: nat): int
    requires k <= w
  {
    (x * BV.Pow2(k)) % BV.Pow2(w) + x / BV.Pow2(w - k)
  }

  function RotatedDown(x: nat, k: nat, w: nat): int
    requires k <= w
  {
    x / BV.Pow2(k) + (x * BV.Pow2(w - k)) % BV.Pow2(w)
  }

  /** The same number in two's complement at a larger width. */
  predicate SameTwos(v: nat, w': nat, x: nat, w: nat)
    requires w' >= w > 0
  {
    v < BV.Pow2(w') && Twos(v, w') == Twos(x, w)
  }

  /** An operator on the word `x` of width `w` gives the word `v`. */
  predicate OneWordLaw(op: Op, x: nat, w: nat, v: nat)
    requires OnWord(op) && w > 0 && (op.BvExtract? ==> op.low <= op.high)
  {
    var p := BV.Pow2(w);
    match op
    case BvNot => v + x == p - 1
    case BvNeg => v < p && (v + x) % p == 0
    case BvRotateLeft(n) => v == RotatedUp(x, n % w, w)
    case BvRotateRight(n) => v == RotatedDown(x, n % w, w)
    case BvExtract(high, low) => v == (x / BV.Pow2(low)) % BV.Pow2(high - low + 1)
    case BvZeroExtend(n) => v == x
    case BvSignExtend(n) => SameTwos(v, w + n, x, w)
    case BvRepeat(n) => v * (p - 1) == x * (BV.Pow2(w * n) - 1)
  }

  /** Two digits combined, in arithmetic. */
  function Combined(op: Op, a: nat, b: nat): int
    requires Bitwise(op)
  {
    match op
    case BvAnd => a * b
    case BvOr => a + b - a * b
    case BvXor => (a + b) % 2
    case BvNand => 1 - a * b
    case BvNor => (1 - a) * (1 - b)
    case BvXnor => 1 - (a + b) % 2
  }

  /** The digits of `v` are those of `x` and `y` combined. */
  predicate DigitLaw(op: Op, x: nat, y: nat, w: nat, v: nat)
    requires Bitwise(op)
  {
    forall k :: 0 <= k < w ==> Digit(v, k) == Combined(op, Digit(x, k), Digit(y, k))
  }

  /** Signed division and its two remainders; by zero, the quotient is 1 or -1 and the remainder the
      dividend. */
  predicate SignedLaw(op: Op, s: int, t: int, w: nat, v: nat)
    requires op.BvSdiv? || op.BvSrem? || op.BvSmod?
  {
    var p := BV.Pow2(w);
    match op
    case BvSdiv => v == (if t == 0 then (if s < 0 then 1 else p - 1) else Quotient(s, t) % p)
    case BvSrem => v == (if t == 0 then s else s - t * Quotient(s, t)) % p
    case BvSmod => v == (if t == 0 then s else FloorRemainder(s, t)) % p
  }

  /** The remainder with the sign of the divisor. */
  function FloorRemainder(s: int, t: int): (r: int)
    requires t != 0
    ensures (t > 0 ==> 0 <= r < t) && (t < 0 ==> t < r <= 0)
    ensures (s - r) % Abs(t) == 0
  {
    FloorRemainderOk(s, t);
    if t > 0 || s % Abs(t) == 0 then s % Abs(t) else s % Abs(t) + t
  }

  /** An operator on the words `x` and `y` of width `w` gives the word `v`. */
  predicate TwoWordsLaw(op: Op, x: nat, y: nat, w: nat, v: nat)
    requires OnWords(op) && w > 0
  {
    var p := BV.Pow2(w);
    match op
    case BvAdd => v == (x + y) % p
    case BvSub => v == (x - y) % p
    case BvMul => v == (x * y) % p
    case BvUdiv => v == if y == 0 then p - 1 else x / y
    case BvUrem => v == if y == 0 then x else x % y
    case BvShl => v == (x * BV.Pow2(y)) % p
    case BvLshr => v == x / BV.Pow2(y)
    case BvAshr => v < p && Twos(v, w) == Twos(x, w) / BV.Pow2(y)
    case BvSdiv => SignedLaw(op, Twos(x, w), Twos(y, w), w, v)
    case BvSrem => SignedLaw(op, Twos(x, w), Twos(y, w), w, v)
    case BvSmod => SignedLaw(op, Twos(x, w), Twos(y, w), w, v)
    case _ => v < p && DigitLaw(op, x, y, w, v)
  }

  predicate CompareLaw(op: Op, x: nat, y: nat, w: nat, b: bool)
    requires ComparesWords(op) && w > 0
  {
    match op
    case BvUlt => b <==> x < y
    case BvUle => b <==> x <= y
    case BvUgt => b <==> x > y
    case BvUge => b <==> x >= y
    case BvSlt => b <==> Twos(x, w) < Twos(y, w)
    case BvSle => b <==> Twos(x, w) <= Twos(y, w)
    case BvSgt => b <==> Twos(x, w) > Twos(y, w)
    case BvSge => b <==> Twos(x, w) >= Twos(y, w)
  }

  // ---------- one word ----------

  lemma DigitBit(bits: seq<bool>, k: nat)
    requires k < |bits|
    ensures Digit(BV.Value(bits), k) == BV.Bit(bits[k])
  {
    hide BV.Value, BV.Pow2;
    var lo, mid, hi := bits[..k], [bits[k]], bits[k + 1..];
    assert bits == lo + (mid + hi);
    BV.ValueSplit(lo, mid + hi);
    BV.ValueCons(bits[k], hi);
    BV.QuotientOf(BV.Value(bits), BV.Pow2(k), BV.Value(mid + hi), BV.Value(lo));
    BV.ModUnique(BV.Value(mid + hi), 2, BV.Value(hi), BV.Bit(bits[k]));
  }

  /** The bits past the end come back at the start. */
  lemma RotatedValue(a: seq<bool>, k: nat)
    requires k <= |a|
    ensures BV.Value(Rotated(a, k)) == (BV.Value(a) * BV.Pow2(k)) % BV.Pow2(|a|) + BV.Value(a) / BV.Pow2(|a| - k)
  {
    hide BV.Value, BV.Pow2;
    var lo, hi := a[..|a| - k], a[|a| - k..];
    assert a == lo + hi;
    BV.ValueSplit(lo, hi);
    BV.ValueSplit(hi, lo);
    BV.QuotientOf(BV.Value(a), BV.Pow2(|a| - k), BV.Value(hi), BV.Value(lo));
    BV.Pow2Add(|a| - k, k);
    BV.SplitTimes(BV.Value(lo), BV.Value(hi), BV.Pow2(|a| - k), BV.Pow2(k));
    BV.BelowProduct(BV.Value(lo), BV.Pow2(|a| - k), BV.Pow2(k));
    BV.ModUnique(BV.Value(a) * BV.Pow2(k), BV.Pow2(|a|), BV.Value(hi), BV.Pow2(k) * BV.Value(lo));
  }

  lemma SliceValue(a: seq<bool>, low: nat, high: nat)
    requires low <= high < |a|
    ensures BV.Value(a[low..high + 1]) == (BV.Value(a) / BV.Pow2(low)) % BV.Pow2(high - low + 1)
  {
    hide BV.Value, BV.Pow2;
    var lo, mid, hi := a[..low], a[low..high + 1], a[high + 1..];
    assert a == lo + (mid + hi);
    BV.ValueSplit(lo, mid + hi);
    BV.ValueSplit(mid, hi);
    BV.QuotientOf(BV.Value(a), BV.Pow2(low), BV.Value(mid + hi), BV.Value(lo));
    BV.QuotientOf(BV.Value(mid + hi), BV.Pow2(|mid|), BV.Value(hi), BV.Value(mid));
  }

  lemma ExtendedValue(a: seq<bool>, n: nat, b: bool)
    ensures BV.Value(a + BV.Fill(n, b)) == BV.Value(a) + if b then BV.Pow2(|a| + n) - BV.Pow2(|a|) else 0
  {
    hide BV.Value, BV.Pow2;
    BV.ValueSplit(a, BV.Fill(n, b));
    if b {
      BV.ValueAllTrue(BV.Fill(n, b));
      BV.Pow2Add(|a|, n);
      BV.Distribute(BV.Pow2(|a|), BV.Pow2(n), -1);
    } else {
      BV.ValueAllFalse(BV.Fill(n, b));
    }
  }

  lemma SignExtended(a: seq<bool>, n: nat)
    requires a != []
    ensures SameTwos(BV.Value(a + BV.Fill(n, a[|a| - 1])), |a| + n, BV.Value(a), |a|)
  {
    hide BV.Value;
    var w := |a|;
    ExtendedValue(a, n, a[w - 1]);
    BV.TopBit(a);
    BV.Pow2Mono(w, w + n);
    BV.Pow2Mono(w - 1, w + n - 1);
    assert BV.Pow2(w) == 2 * BV.Pow2(w - 1) && BV.Pow2(w + n) == 2 * BV.Pow2(w + n - 1);
  }

  /** Iterated concatenation: a geometric sum. */
  lemma {:induction false} RepeatedValue(a: seq<bool>, n: nat)
    ensures BV.Value(Repeated(a, n)) * (BV.Pow2(|a|) - 1) == BV.Value(a) * (BV.Pow2(|a| * n) - 1)
  {
    hide BV.Value, BV.Pow2;
    var x, w := BV.Value(a), |a|;
    if n == 0 {
      assert w * n == 0;
      NoBits();
    } else {
      RepeatedValue(a, n - 1);
      var r := Repeated(a, n - 1);
      BV.ValueSplit(r, a);
      TimesStep(w, n);
      BV.Pow2Add(w * (n - 1), w);
      GeometricStep(BV.Value(r), x, BV.Pow2(w * (n - 1)), BV.Pow2(w));
    }
  }

  lemma NoBits()
    ensures BV.Value([]) == 0 && BV.Pow2(0) == 1
  {
  }

  lemma TimesStep(w: nat, n: nat)
    requires n > 0
    ensures w * n == w * (n - 1) + w
  {
  }

  lemma GeometricStep(r: int, x: int, q: int, p: int)
    requires r * (p - 1) == x * (q - 1)
    ensures (r + q * x) * (p - 1) == x * (q * p - 1)
  {
    assert (r + q * x) * (p - 1) == r * (p - 1) + (q * x) * (p - 1);
    assert (q * x) * (p - 1) == (q * x) * p - q * x;
    assert (q * x) * p == x * (q * p) by { BV.MulAssoc(q, x, p); BV.Regroup(x, q, p); }
    assert x * (q - 1) == x * q - x && x * (q * p - 1) == x * (q * p) - x;
  }

  lemma NegationLaw(x: nat, p: nat)
    requires x < p
    ensures var v := if x == 0 then 0 else p - x; v < p && (v + x) % p == 0
  {
    BV.ModUnique(p, p, 1, 0);
  }

  lemma RotatedNumbers(a: seq<bool>, k: nat)
    requires k <= |a|
    ensures BV.Value(Rotated(a, k)) == RotatedUp(BV.Value(a), k, |a|)
    ensures BV.Value(Rotated(a, |a| - k)) == RotatedDown(BV.Value(a), k, |a|)
  {
    hide BV.Value, BV.Pow2, Rotated;
    RotatedValue(a, k);
    RotatedValue(a, |a| - k);
  }

  lemma RotateWords(n: nat, a: seq<bool>)
    requires |a| > 0
    ensures WordFrom(BvRotateLeft(n), a) == Rotated(a, n % |a|) && WordFrom(BvRotateRight(n), a) == Rotated(a, |a| - n % |a|)
  {
    hide Rotated;
  }

  lemma RotateLaws(n: nat, a: seq<bool>)
    requires |a| > 0
    ensures OneWordLaw(BvRotateLeft(n), BV.Value(a), |a|, BV.Value(WordFrom(BvRotateLeft(n), a)))
    ensures OneWordLaw(BvRotateRight(n), BV.Value(a), |a|, BV.Value(WordFrom(BvRotateRight(n), a)))
  {
    hide BV.Value, BV.Pow2, Rotated, RotatedUp, RotatedDown, WordFrom;
    RotateWords(n, a);
    RotatedNumbers(a, n % |a|);
  }

  lemma ExtractLaw(high: nat, low: nat, a: seq<bool>)
    requires low <= high < |a|
    ensures OneWordLaw(BvExtract(high, low), BV.Value(a), |a|, BV.Value(WordFrom(BvExtract(high, low), a)))
  {
    hide BV.Value, BV.Pow2;
    SliceValue(a, low, high);
    assert WordFrom(BvExtract(high, low), a) == a[low..high + 1];
  }

  lemma RepeatLaw(n: nat, a: seq<bool>)
    requires |a| > 0
    ensures OneWordLaw(BvRepeat(n), BV.Value(a), |a|, BV.Value(WordFrom(BvRepeat(n), a)))
  {
    hide BV.Value, BV.Pow2, Repeated;
    RepeatedValue(a, n);
    assert WordFrom(BvRepeat(n), a) == Repeated(a, n);
  }

  lemma ZeroExtendLaw(n: nat, a: seq<bool>)
    requires |a| > 0
    ensures OneWordLaw(BvZeroExtend(n), BV.Value(a), |a|, BV.Value(WordFrom(BvZeroExtend(n), a)))
  {
    hide BV.Value, BV.Pow2, BV.Fill;
    ExtendedValue(a, n, false);
    assert WordFrom(BvZeroExtend(n), a) == a + BV.Fill(n, false);
  }

  lemma SignExtendWord(n: nat, a: seq<bool>)
    requires |a| > 0
    ensures WordFrom(BvSignExtend(n), a) == a + BV.Fill(n, a[|a| - 1])
  {
    hide BV.Fill;
  }

  lemma SignExtendLaw(n: nat, a: seq<bool>)
    requires |a| > 0
    ensures OneWordLaw(BvSignExtend(n), BV.Value(a), |a|, BV.Value(WordFrom(BvSignExtend(n), a)))
  {
    hide BV.Value, BV.Pow2, BV.Fill, SameTwos, WordFrom;
    SignExtendWord(n, a);
    SignExtended(a, n);
  }

  lemma NotLaw(a: seq<bool>)
    requires |a| > 0
    ensures OneWordLaw(BvNot, BV.Value(a), |a|, BV.Value(WordFrom(BvNot, a)))
  {
    hide BV.Value, BV.Pow2, BV.NotBits;
    BV.ValueNot(a, BV.NotBits(a));
    assert WordFrom(BvNot, a) == BV.NotBits(a);
  }

  lemma NegLaw(a: seq<bool>)
    requires |a| > 0
    ensures OneWordLaw(BvNeg, BV.Value(a), |a|, BV.Value(WordFrom(BvNeg, a)))
  {
    hide BV.Value, BV.Pow2, Negation;
    NegationLaw(BV.Value(a), BV.Pow2(|a|));
    assert WordFrom(BvNeg, a) == Negation(a);
  }

  /** One word: every operator obeys its law. */
  lemma OneWord(op: Op, a: seq<bool>)
    requires OnWord(op) && |a| > 0 && (op.BvExtract? ==> op.low <= op.high < |a|)
    ensures OneWordLaw(op, BV.Value(a), |a|, BV.Value(WordFrom(op, a)))
  {
    hide OneWordLaw, WordFrom, BV.Value, BV.Pow2, WidthOf;
    if op.BvRotateLeft? || op.BvRotateRight? {
      RotateLaws(op.n, a);
    } else if op.BvExtract? {
      ExtractLaw(op.high, op.low, a);
    } else if op.BvRepeat? {
      RepeatLaw(op.n, a);
    } else if op.BvZeroExtend? || op.BvSignExtend? {
      ZeroExtendLaw(op.n, a);
      SignExtendLaw(op.n, a);
    } else {
      NegLaw(a);
      NotLaw(a);
    }
  }

  // ---------- two words ----------

  lemma FloorRemainderOk(s: int, t: int)
    requires t != 0
    ensures var r := if t > 0 || s % Abs(t) == 0 then s % Abs(t) else s % Abs(t) + t;
      (t > 0 ==> 0 <= r < t) && (t < 0 ==> t < r <= 0) && (s - r) % Abs(t) == 0
  {
    var m := Abs(t);
    BV.ModSplit(s, m);
    BV.ModUnique(s - s % m, m, s / m, 0);
    BV.ModUnique(s - (s % m - m), m, s / m + 1, 0) by { assert (s / m + 1) * m == (s / m) * m + m; }
  }

  lemma BitsCombined(op: Op, a: bool, b: bool, r: bool)
    requires Bitwise(op) && [r] == BitwiseOn(op, [a], [b])
    ensures BV.Bit(r) == Combined(op, BV.Bit(a), BV.Bit(b))
  {
    assert [r][0] == r;
  }

  lemma BitwiseLaw(op: Op, a: seq<bool>, b: seq<bool>)
    requires Bitwise(op) && |a| == |b|
    ensures BV.Value(BitwiseOn(op, a, b)) < BV.Pow2(|a|)
    ensures DigitLaw(op, BV.Value(a), BV.Value(b), |a|, BV.Value(BitwiseOn(op, a, b)))
  {
    hide Digit, BV.Value, BV.Pow2;
    var r := BitwiseOn(op, a, b);
    forall k | 0 <= k < |a| ensures BV.Bit(r[k]) == Combined(op, BV.Bit(a[k]), BV.Bit(b[k])) {
      assert [r[k]] == BitwiseOn(op, [a[k]], [b[k]]);
      BitsCombined(op, a[k], b[k], r[k]);
    }
    forall k | 0 <= k < |a|
      ensures Digit(BV.Value(a), k) == BV.Bit(a[k]) && Digit(BV.Value(b), k) == BV.Bit(b[k]) && Digit(BV.Value(r), k) == BV.Bit(r[k])
    {
      DigitBit(a, k);
      DigitBit(b, k);
      DigitBit(r, k);
    }
  }

  lemma ShiftLaws(x: nat, y: nat, w: nat)
    requires w > 0 && x < BV.Pow2(w)
    ensures BV.BvShl(x, y, w) == (x * BV.Pow2(y)) % BV.Pow2(w)
    ensures BV.BvLshr(x, y, w) == x / BV.Pow2(y)
  {
    if y >= w {
      BV.TimesPow2Vanishes(x, y, w);
      BV.Pow2Mono(w, y);
      BV.SmallDiv(x, BV.Pow2(y));
    }
  }

  lemma HalfRange(w: nat)
    requires w > 0
    ensures BV.Pow2(w) == 2 * BV.Pow2(w - 1)
  {
  }

  lemma ComplementDown(c: nat, q: nat)
    requires q > 0
    ensures (-1 - c) / q == -1 - c / q && 0 <= c / q <= c
  {
    BV.QuotientBelow(c, q);
    BV.ModSplit(c, q);
    var k: int, m: int := c / q, q;
    assert (-1 - k) * m == -m - k * m;
    BV.ModUnique(-1 - c, m, -1 - k, m - 1 - c % q);
  }

  lemma AshrLaw(x: nat, y: nat, w: nat)
    requires w > 0 && x < BV.Pow2(w)
    ensures var v := BV.BvAshr(x, y, w); v < BV.Pow2(w) && Twos(v, w) == Twos(x, w) / BV.Pow2(y)
  {
    hide BV.BvLshr, BV.Pow2;
    HalfRange(w);
    var p := BV.Pow2(w);
    if x < BV.Pow2(w - 1) {
      ShiftLaws(x, y, w);
      BV.QuotientBelow(x, BV.Pow2(y));
    } else {
      ShiftLaws(p - 1 - x, y, w);
      ComplementDown(p - 1 - x, BV.Pow2(y));
    }
  }

  lemma UnsignedLaw(op: Op, x: nat, y: nat, w: nat)
    requires OnWords(op) && !Bitwise(op) && !op.BvSdiv? && !op.BvSrem? && !op.BvSmod?
    requires w > 0 && x < BV.Pow2(w) && y < BV.Pow2(w)
    ensures TwoWordsLaw(op, x, y, w, ArithmeticOn(op, x, y, w) % BV.Pow2(w))
  {
    hide BV.Pow2, Twos, BV.BvShl, BV.BvLshr, BV.BvAshr;
    var p, v := BV.Pow2(w), ArithmeticOn(op, x, y, w);
    ShiftLaws(x, y, w);
    AshrLaw(x, y, w);
    BV.QuotientBelow(x, BV.Pow2(y));
    if y > 0 {
      BV.QuotientBelow(x, y);
      BV.ModSplit(x, y);
    }
    assert 0 <= v < p;
    BV.SmallMod(v, p);
  }

  // ---------- signed division ----------

  lemma NegativeMod(c: nat, m: nat)
    requires m > 0
    ensures (0 - c) % m == if c % m == 0 then 0 else m - c % m
  {
    BV.ModSplit(c, m);
    var k: int, p: int := c / m, m;
    if c % m == 0 {
      assert (-k) * p == -(k * p);
      BV.ModUnique(0 - c, p, -k, 0);
    } else {
      assert (-1 - k) * p == -p - k * p;
      BV.ModUnique(0 - c, p, -1 - k, p - c % m);
    }
  }

  lemma AbsTwos(x: nat, w: nat)
    requires w > 0 && x < BV.Pow2(w)
    ensures Twos(x, w) < 0 <==> BV.Negative(x, w)
    ensures Abs(Twos(x, w)) == if BV.Negative(x, w) then BV.BvNeg(x, w) else x
    ensures Twos(x, w) == 0 <==> x == 0
    ensures Abs(Twos(x, w)) < BV.Pow2(w)
  {
    HalfRange(w);
  }

  lemma SdivLaw(x: nat, y: nat, w: nat)
    requires w > 0 && x < BV.Pow2(w) && y < BV.Pow2(w)
    ensures SignedLaw(BvSdiv, Twos(x, w), Twos(y, w), w, BV.BvSdiv(x, y, w))
  {
    hide BV.Pow2, Twos, Abs, BV.Negative, BV.BvNeg;
    var p, s, t := BV.Pow2(w), Twos(x, w), Twos(y, w);
    AbsTwos(x, w);
    AbsTwos(y, w);
    HalfRange(w);
    SignOfAbs(t);
    if t == 0 {
      var m: int := p;
      BV.ModUnique(1 - m, m, -1, 1);
    } else {
      BV.QuotientBelow(Abs(s), Abs(t));
      BV.SmallMod(Abs(s) / Abs(t), p);
    }
  }

  /** What division towards zero leaves has the sign of the dividend. */
  lemma QuotientLeaves(s: int, t: int)
    requires t != 0
    ensures s - t * Quotient(s, t) == if s < 0 then 0 - Abs(s) % Abs(t) else Abs(s) % Abs(t)
  {
    var a: int, m: int := Abs(s), Abs(t);
    BV.ModSplit(a, m);
    var q := a / m;
    assert t * q == (if t < 0 then -(q * m) else q * m) && t * (-q) == -(t * q);
  }

  lemma SremLaw(x: nat, y: nat, w: nat)
    requires w > 0 && x < BV.Pow2(w) && y < BV.Pow2(w)
    ensures SignedLaw(BvSrem, Twos(x, w), Twos(y, w), w, BV.BvSrem(x, y, w))
  {
    hide BV.Pow2, Twos, Abs, Quotient, BV.Negative, BV.BvNeg;
    var p, s, t := BV.Pow2(w), Twos(x, w), Twos(y, w);
    AbsTwos(x, w);
    AbsTwos(y, w);
    SignOfAbs(s);
    SignOfAbs(t);
    if t == 0 {
      BV.SmallMod(Abs(s), p);
    } else {
      QuotientLeaves(s, t);
      RemainderBelow(Abs(s), Abs(t));
      BV.SmallMod(Abs(s) % Abs(t), p);
    }
  }

  lemma SignOfAbs(s: int)
    ensures s == if s < 0 then 0 - Abs(s) else Abs(s)
    ensures s == 0 <==> Abs(s) == 0
  {
  }

  lemma RemainderBelow(a: nat, m: nat)
    requires m > 0
    ensures 0 <= a % m < m && a % m <= a
  {
    BV.QuotientBelow(a, m);
    BV.ModSplit(a, m);
    BV.TimesAtLeast(a / m, m);
  }

  /** The remainder with the sign of the divisor, from that of the absolute values. */
  lemma FloorFromAbs(s: int, t: int)
    requires t != 0
    ensures FloorRemainder(s, t) ==
      var u := Abs(s) % Abs(t);
      if u == 0 then 0 else if s >= 0 then (if t > 0 then u else u + t) else if t > 0 then t - u else 0 - u
  {
    if s < 0 { NegativeMod(-s, Abs(t)); }
  }

  lemma SmodLaw(x: nat, y: nat, w: nat)
    requires w > 0 && x < BV.Pow2(w) && y < BV.Pow2(w)
    ensures SignedLaw(BvSmod, Twos(x, w), Twos(y, w), w, BV.BvSmod(x, y, w))
  {
    hide BV.Pow2, Twos, Abs, FloorRemainder, BV.Negative, BV.BvNeg;
    var p, s, t := BV.Pow2(w), Twos(x, w), Twos(y, w);
    AbsTwos(x, w);
    AbsTwos(y, w);
    SignOfAbs(s);
    SignOfAbs(t);
    var u: nat := BV.BvUrem(Abs(s), Abs(t), w);
    if t != 0 {
      FloorFromAbs(s, t);
      RemainderBelow(Abs(s), Abs(t));
    }
    SmodValue(x, y, w, s, t, u);
  }

  /** The five cases of bvsmod, reduced to the width. */
  lemma SmodValue(x: nat, y: nat, w: nat, s: int, t: int, u: nat)
    requires w > 0 && x < BV.Pow2(w) && y < BV.Pow2(w) && s == Twos(x, w) && t == Twos(y, w)
    requires u == BV.BvUrem(Abs(s), Abs(t), w) && u < BV.Pow2(w)
    ensures BV.BvSmod(x, y, w) ==
      (if u == 0 then 0 else if s >= 0 then (if t >= 0 then u else u + t) else if t >= 0 then t - u else 0 - u) % BV.Pow2(w)
  {
    hide BV.Pow2, Twos, Abs, BV.Negative, BV.BvNeg;
    var p := BV.Pow2(w);
    AbsTwos(x, w);
    AbsTwos(y, w);
    BV.SmallMod(u, p);
    BV.SmallMod(0, p);
    if s >= 0 && t < 0 {
      TwosMod(y, w);
      BV.ModPlusMultiple(u + t, 1, p);
    } else if s < 0 && t >= 0 {
      TwosMod(y, w);
      BV.ModAddMod(0 - u, y, p);
    }
  }

  lemma TwosMod(y: nat, w: nat)
    requires w > 0 && y < BV.Pow2(w)
    ensures y == if Twos(y, w) < 0 then Twos(y, w) + BV.Pow2(w) else Twos(y, w)
  {
  }

  // ---------- terms ----------

  lemma TwoWords(op: Op, a: seq<bool>, b: seq<bool>)
    requires OnWords(op) && |a| == |b| > 0
    ensures TwoWordsLaw(op, BV.Value(a), BV.Value(b), |a|, BV.Value(WordsFrom(op, a, b)))
  {
    hide BV.Value, BV.Pow2, TwoWordsLaw, BitwiseOn, ArithmeticOn, BV.LowBits;
    var x, y, w := BV.Value(a), BV.Value(b), |a|;
    if Bitwise(op) {
      BitwiseLaw(op, a, b);
      BitwiseTwo(op, x, y, w, BV.Value(BitwiseOn(op, a, b)));
    } else if op.BvSdiv? || op.BvSrem? || op.BvSmod? {
      SignedTwo(op, x, y, w);
    } else {
      UnsignedLaw(op, x, y, w);
    }
  }

  lemma BitwiseTwo(op: Op, x: nat, y: nat, w: nat, v: nat)
    requires Bitwise(op) && w > 0 && v < BV.Pow2(w) && DigitLaw(op, x, y, w, v)
    ensures TwoWordsLaw(op, x, y, w, v)
  {
    hide DigitLaw;
  }

  lemma SignedTwo(op: Op, x: nat, y: nat, w: nat)
    requires (op.BvSdiv? || op.BvSrem? || op.BvSmod?) && w > 0 && x < BV.Pow2(w) && y < BV.Pow2(w)
    ensures TwoWordsLaw(op, x, y, w, ArithmeticOn(op, x, y, w) % BV.Pow2(w))
  {
    hide BV.Pow2, SignedLaw, Twos, BV.BvSdiv, BV.BvSrem, BV.BvSmod;
    var v := ArithmeticOn(op, x, y, w);
    if op.BvSdiv? { SdivLaw(x, y, w); } else if op.BvSrem? { SremLaw(x, y, w); } else { SmodLaw(x, y, w); }
    SignedBelow(op, Twos(x, w), Twos(y, w), w, v);
    BV.SmallMod(v, BV.Pow2(w));
  }

  lemma SignedBelow(op: Op, s: int, t: int, w: nat, v: nat)
    requires (op.BvSdiv? || op.BvSrem? || op.BvSmod?) && w > 0 && SignedLaw(op, s, t, w, v)
    ensures v < BV.Pow2(w)
  {
    hide Quotient, FloorRemainder;
    HalfRange(w);
  }

  lemma ComparedWords(op: Op, a: seq<bool>, b: seq<bool>)
    requires ComparesWords(op) && |a| == |b| > 0
    ensures CompareLaw(op, BV.Value(a), BV.Value(b), |a|, WordsCompare(op, a, b))
  {
    hide BV.Value, BV.Pow2;
    assert forall x :: BV.Signed(x, |a|) == Twos(x, |a|);
  }

  /** The number that a term of a word sort stands for. */
  ghost function NumberOf(sorts: Sorts, terms: Terms, id: nat, i: Interp): nat
    requires ArenaOk(sorts, terms) && id < |terms| && Fits(i) && SortOf(sorts, terms, id).BitVec?
  {
    BV.Value(Eval(sorts, terms, id, i).bits)
  }

  lemma OneWordTerm(sorts: Sorts, terms: Terms, id: nat, i: Interp)
    requires ArenaOk(sorts, terms) && id < |terms| && Fits(i) && OnWord(terms[id].op)
    ensures |terms[id].args| == 1 && terms[id].args[0] < id
    ensures var x := terms[id].args[0];
      && SortOf(sorts, terms, id).BitVec? && SortOf(sorts, terms, x).BitVec? && SortOf(sorts, terms, x).width > 0
      && (terms[id].op.BvExtract? ==> terms[id].op.low <= terms[id].op.high)
      && OneWordLaw(terms[id].op, NumberOf(sorts, terms, x, i), SortOf(sorts, terms, x).width, NumberOf(sorts, terms, id, i))
  {
    hide ArenaOk, Eval, OneWordLaw, WordFrom, BV.Value, BV.Pow2;
    EvalOnWord(sorts, terms, id, i);
    OneWord(terms[id].op, Eval(sorts, terms, terms[id].args[0], i).bits);
  }

  lemma TwoWordsTerm(sorts: Sorts, terms: Terms, id: nat, i: Interp)
    requires ArenaOk(sorts, terms) && id < |terms| && Fits(i) && OnWords(terms[id].op)
    ensures |terms[id].args| == 2 && terms[id].args[0] < id && terms[id].args[1] < id
    ensures var x, y := terms[id].args[0], terms[id].args[1];
      && SortOf(sorts, terms, id).BitVec? && SortOf(sorts, terms, x) == SortOf(sorts, terms, y) == SortOf(sorts, terms, id)
      && SortOf(sorts, terms, id).width > 0
      && TwoWordsLaw(terms[id].op, NumberOf(sorts, terms, x, i), NumberOf(sorts, terms, y, i), SortOf(sorts, terms, id).width,
                     NumberOf(sorts, terms, id, i))
  {
    hide ArenaOk, Eval, TwoWordsLaw, WordsFrom, BV.Value, BV.Pow2;
    EvalOnWords(sorts, terms, id, i);
    TwoWords(terms[id].op, Eval(sorts, terms, terms[id].args[0], i).bits, Eval(sorts, terms, terms[id].args[1], i).bits);
  }

  lemma ComparedTerm(sorts: Sorts, terms: Terms, id: nat, i: Interp)
    requires ArenaOk(sorts, terms) && id < |terms| && Fits(i) && ComparesWords(terms[id].op)
    ensures |terms[id].args| == 2 && terms[id].args[0] < id && terms[id].args[1] < id
    ensures var x, y := terms[id].args[0], terms[id].args[1];
      && SortOf(sorts, terms, x).BitVec? && SortOf(sorts, terms, x) == SortOf(sorts, terms, y) && SortOf(sorts, terms, x).width > 0
      && CompareLaw(terms[id].op, NumberOf(sorts, terms, x, i), NumberOf(sorts, terms, y, i), SortOf(sorts, terms, x).width,
                    IsTrue(sorts, terms, id, i))
  {
    hide ArenaOk, Eval, CompareLaw, WordsCompare, BV.Value, BV.Pow2;
    EvalComparesWords(sorts, terms, id, i);
    ComparedWords(terms[id].op, Eval(sorts, terms, terms[id].args[0], i).bits, Eval(sorts, terms, terms[id].args[1], i).bits);
  }

  /** The first argument is the high part. */
  lemma ConcatTerm(sorts: Sorts, terms: Terms, id: nat, i: Interp)
    requires ArenaOk(sorts, terms) && id < |terms| && Fits(i) && terms[id].op.BvConcat?
    ensures |terms[id].args| == 2 && terms[id].args[0] < id && terms[id].args[1] < id
    ensures var x, y := terms[id].args[0], terms[id].args[1];
      && SortOf(sorts, terms, id).BitVec? && SortOf(sorts, terms, x).BitVec? && SortOf(sorts, terms, y).BitVec?
      && NumberOf(sorts, terms, id, i) == NumberOf(sorts, terms, x, i) * BV.Pow2(SortOf(sorts, terms, y).width) + NumberOf(sorts, terms, y, i)
  {
    hide ArenaOk, Eval, BV.Value, BV.Pow2;
    EvalConcat(sorts, terms, id, i);
    BV.ValueSplit(Eval(sorts, terms, terms[id].args[1], i).bits, Eval(sorts, terms, terms[id].args[0], i).bits);
  }
}
