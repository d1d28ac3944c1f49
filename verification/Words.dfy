/** The bits of 64-bit words. */
module Words {

  /** A shift count below 64, as a word. */
  function Amount(k: nat): bv64
    requires k < 64
  {
    (k as bv6) as bv64
  }

  predicate WordBit(w: bv64, k: bv64)
    requires k < 64
  {
    (w >> k) & 1 == 1
  }

  function WordMask(k: bv64): bv64
    requires k < 64
  {
    1 << k
  }

  lemma SixBits(k: nat)
    requires k < 64
    ensures (k as bv6) as nat == k
  {
  }

  lemma SixExtended(x: bv6, y: bv6)
    ensures x as bv64 == y as bv64 <==> x == y
    ensures x as bv64 < 64
  {
  }

  lemma AmountFacts(j: nat, k: nat)
    requires j < 64 && k < 64
    ensures Amount(j) == Amount(k) <==> j == k
    ensures Amount(j) < 64 && Amount(k) < 64
  {
    SixBits(j);
    SixBits(k);
    SixExtended(j as bv6, k as bv6);
    SixExtended(k as bv6, j as bv6);
  }

  /** The word with one bit set, or cleared. */
  function WordWith(w: bv64, k: bv64): bv64
    requires k < 64
  {
    w | WordMask(k)
  }

  function WordWithout(w: bv64, k: bv64): bv64
    requires k < 64
  {
    w & !WordMask(k)
  }

  lemma WordSetSame(w: bv64, k: bv64)
    requires k < 64
    ensures WordBit(WordWith(w, k), k) && !WordBit(WordWithout(w, k), k)
  {
  }

  lemma WordSetOther(w: bv64, j: bv64, k: bv64)
    requires j < 64 && k < 64 && j != k
    ensures WordBit(WordWith(w, k), j) == WordBit(w, j)
  {
  }

  lemma WordClearOther(w: bv64, j: bv64, k: bv64)
    requires j < 64 && k < 64 && j != k
    ensures WordBit(WordWithout(w, k), j) == WordBit(w, j)
  {
  }

  lemma WordXor(w: bv64, v: bv64, j: bv64)
    requires j < 64
    ensures WordBit(w ^ v, j) == (WordBit(w, j) != WordBit(v, j))
    ensures !WordBit(0, j)
  {
  }

  predicate Bit(w: bv64, k: nat)
    requires k < 64
  {
    hide *;
    AmountFacts(k, k);
    WordBit(w, Amount(k))
  }

  function With(w: bv64, k: nat): bv64
    requires k < 64
  {
    hide *;
    AmountFacts(k, k);
    WordWith(w, Amount(k))
  }

  function Without(w: bv64, k: nat): bv64
    requires k < 64
  {
    hide *;
    AmountFacts(k, k);
    WordWithout(w, Amount(k))
  }

  lemma BitIs(w: bv64, k: nat)
    requires k < 64
    ensures Amount(k) < 64 && Bit(w, k) == WordBit(w, Amount(k))
  {
    hide Amount, WordBit;
    AmountFacts(k, k);
  }

  lemma WithIs(w: bv64, k: nat)
    requires k < 64
    ensures Amount(k) < 64 && With(w, k) == WordWith(w, Amount(k)) && Without(w, k) == WordWithout(w, Amount(k))
  {
    hide Amount, WordWith, WordWithout;
    AmountFacts(k, k);
  }

  /** Setting or clearing a bit changes that bit and no other. */
  lemma SetBit(w: bv64, j: nat, k: nat)
    requires j < 64 && k < 64
    ensures Bit(With(w, k), j) == (j == k || Bit(w, j))
    ensures Bit(Without(w, k), j) == (j != k && Bit(w, j))
  {
    hide *;
    AmountFacts(j, k);
    WithIs(w, k);
    BitIs(With(w, k), j);
    BitIs(Without(w, k), j);
    BitIs(w, j);
    if j == k { WordSetSame(w, Amount(k)); } else { WordSetOther(w, Amount(j), Amount(k)); WordClearOther(w, Amount(j), Amount(k)); }
  }

  function Xor(w: bv64, v: bv64): bv64 { w ^ v }

  lemma XorBit(w: bv64, v: bv64, j: nat)
    requires j < 64
    ensures Bit(Xor(w, v), j) == (Bit(w, j) != Bit(v, j))
    ensures !Bit(0, j)
  {
    hide Amount, WordBit;
    AmountFacts(j, j);
    WordXor(w, v, Amount(j));
  }
}
