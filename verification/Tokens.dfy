/** The token of a port, src/userspace/port.c: a mixing of a 64-bit counter reading. A word is a
    number below 2^64; shifts and exclusive or work on its bits, lowest first. */
module Tokens {
  import opened Machine

  type Word = n: nat | n < WORD_LIMIT

  type Bits = seq<bool>

  // Counts as functions, so that the verifier does not unroll 64 bits.
  function Width(): nat { 64 }
  function By(): nat { 33 }

  function Pow2(k: nat): nat {
    if k == 0 then 1 else 2 * Pow2(k - 1)
  }

  function ToBits(n: nat, k: nat): (b: Bits)
    ensures |b| == k
  {
    if k == 0 then [] else [n % 2 == 1] + ToBits(n / 2, k - 1)
  }

  function Value(b: Bits): nat {
    if b == [] then 0 else (if b[0] then 1 else 0) + 2 * Value(b[1..])
  }

  /** `b ^ (b >> 33)`. */
  function FoldBits(b: Bits): (f: Bits)
    ensures |f| == |b|
  {
    seq(|b|, i requires 0 <= i < |b| => b[i] != (i + By() < |b| && b[i + By()]))
  }

  function Fold(v: Word): Word {
    ValueBound(FoldBits(ToBits(v, Width())));
    WordBits();
    Value(FoldBits(ToBits(v, Width())))
  }

  function Times(v: Word, f: nat): Word {
    v * f % WORD_LIMIT
  }

  const FIRST: nat := 0xff51afd7ed558ccd
  const SECOND: nat := 0xc4ceb9fe1a85ec53

  /** What `port_create` does to the reading. */
  function Mix(v: Word): Word {
    Fold(Times(Fold(Times(Fold(v), FIRST)), SECOND))
  }

  // The two odd multipliers have inverses modulo 2^64.
  const FIRST_BACK: nat := 0x4f74430c22a54005
  const SECOND_BACK: nat := 0x9cb4b2f8129337db

  function Unmix(t: Word): Word {
    Fold(Times(Fold(Times(Fold(t), SECOND_BACK)), FIRST_BACK))
  }

  // ----- bits and numbers -----

  lemma {:induction false} ValueBound(b: Bits)
    ensures Value(b) < Pow2(|b|)
  {
    if b != [] {
      ValueBound(b[1..]);
    }
  }

  lemma {:induction false} BitsOfValue(b: Bits)
    ensures ToBits(Value(b), |b|) == b
  {
    if b != [] {
      BitsOfValue(b[1..]);
      assert Value(b) / 2 == Value(b[1..]);
    }
  }

  lemma {:induction false} ValueOfBits(n: nat, k: nat)
    requires n < Pow2(k)
    ensures Value(ToBits(n, k)) == n
  {
    if k > 0 {
      ValueOfBits(n / 2, k - 1);
      assert ToBits(n, k)[1..] == ToBits(n / 2, k - 1);
    }
  }

  lemma Sixteen(k: nat)
    requires k >= 4
    ensures Pow2(k) == 16 * Pow2(k - 4)
  {
    assert Pow2(k) == 2 * Pow2(k - 1) && Pow2(k - 1) == 2 * Pow2(k - 2);
    assert Pow2(k - 2) == 2 * Pow2(k - 3) && Pow2(k - 3) == 2 * Pow2(k - 4);
  }

  lemma Halfword(k: nat)
    requires k >= 16
    ensures Pow2(k) == 0x1_0000 * Pow2(k - 16)
  {
    Sixteen(k);
    Sixteen(k - 4);
    Sixteen(k - 8);
    Sixteen(k - 12);
  }

  lemma WordBits()
    ensures Pow2(Width()) == WORD_LIMIT
  {
    var k := Width();
    Halfword(k);
    Halfword(k - 16);
    Halfword(k - 32);
    Halfword(k - 48);
  }

  /** Folding is its own inverse: the bits it adds come from bits it leaves alone. */
  lemma FoldTwice(v: Word)
    ensures Fold(Fold(v)) == v
  {
    var b := ToBits(v, Width());
    WordBits();
    BitsOfValue(FoldBits(b));
    var f := FoldBits(b);
    forall i | 0 <= i < |b| ensures FoldBits(f)[i] == b[i] {
      assert i + By() < |b| ==> f[i + By()] == b[i + By()];
    }
    assert FoldBits(f) == b;
    ValueOfBits(v, Width());
  }

  /** Binary digit `i` of a number. */
  predicate Bit(v: nat, i: nat) {
    if i == 0 then v % 2 == 1 else Bit(v / 2, i - 1)
  }

  lemma {:induction false} BitAt(n: nat, k: nat, i: nat)
    requires i < k
    ensures ToBits(n, k)[i] == Bit(n, i)
    decreases k
  {
    if i > 0 {
      BitAt(n / 2, k - 1, i - 1);
    }
  }

  lemma FoldedBits(v: Word)
    ensures ToBits(Fold(v), Width()) == FoldBits(ToBits(v, Width()))
  {
    BitsOfValue(FoldBits(ToBits(v, Width())));
  }

  lemma FoldBitBy(v: Word, k: nat, shift: nat, i: nat)
    requires k == Width() && shift == By() && i < k
    ensures Bit(Fold(v), i) == (Bit(v, i) != (i + shift < k && Bit(v, i + shift)))
  {
    FoldedBits(v);
    BitAt(Fold(v), k, i);
    BitAt(v, k, i);
    if i + shift < k {
      BitAt(v, k, i + shift);
    }
  }

  /** Folding flips the bits that have a set bit 33 places higher. */
  lemma FoldBit(v: Word, i: nat)
    requires i < 64
    ensures Bit(Fold(v), i) == (Bit(v, i) != (i < 31 && Bit(v, i + 33)))
  {
    FoldBitBy(v, 64, 33, i);
  }

  // ----- products -----

  lemma TimesBack(v: Word, f: nat, g: nat, q: nat)
    requires f * g == 1 + q * WORD_LIMIT
    ensures Times(Times(v, f), g) == v
  {
    var d := v * f / WORD_LIMIT;
    assert v * f == d * WORD_LIMIT + Times(v, f);
    calc {
      Times(v, f) * g;
      (v * f) * g - (d * WORD_LIMIT) * g;
      v * (f * g) - (d * g) * WORD_LIMIT;
      v * (1 + q * WORD_LIMIT) - (d * g) * WORD_LIMIT;
      v + (v * q) * WORD_LIMIT - (d * g) * WORD_LIMIT;
      v + (v * q - d * g) * WORD_LIMIT;
    }
    Remainder(Times(v, f) * g, v * q - d * g, v);
  }

  lemma Remainder(x: int, q: int, r: Word)
    requires x == r + q * WORD_LIMIT
    ensures x % WORD_LIMIT == r
  {}

  /** Mixing is a bijection of the 64-bit values. */
  lemma MixBijective(v: Word)
    ensures Unmix(Mix(v)) == v && Mix(Unmix(v)) == v
  {
    FoldTwice(Times(Fold(Times(Fold(v), FIRST)), SECOND));
    TimesBack(Fold(Times(Fold(v), FIRST)), SECOND, SECOND_BACK, SECOND * SECOND_BACK / WORD_LIMIT);
    FoldTwice(Times(Fold(v), FIRST));
    TimesBack(Fold(v), FIRST, FIRST_BACK, FIRST * FIRST_BACK / WORD_LIMIT);
    FoldTwice(v);
    FoldTwice(Times(Fold(Times(Fold(v), SECOND_BACK)), FIRST_BACK));
    TimesBack(Fold(Times(Fold(v), SECOND_BACK)), FIRST_BACK, FIRST, FIRST * FIRST_BACK / WORD_LIMIT);
    FoldTwice(Times(Fold(v), SECOND_BACK));
    TimesBack(Fold(v), SECOND_BACK, SECOND, SECOND * SECOND_BACK / WORD_LIMIT);
  }

  /** Distinct readings give distinct tokens, and only the reading 0 gives the failure value 0. */
  lemma MixInjective(v: Word, w: Word)
    ensures Mix(v) == Mix(w) <==> v == w
    ensures Mix(v) == 0 <==> v == 0
  {
    MixBijective(v);
    MixBijective(w);
    if v == 0 {
      ZeroMixes(v);
    }
    if Mix(v) == 0 {
      ZeroMixes(Mix(v));
    }
  }

  lemma ZeroMixes(z: Word)
    requires z == 0
    ensures Mix(z) == 0 && Unmix(z) == 0
  {
    ZeroFolds(z);
    assert Times(Fold(z), FIRST) == z && Times(Fold(z), SECOND) == z;
    assert Times(Fold(z), FIRST_BACK) == z && Times(Fold(z), SECOND_BACK) == z;
  }

  lemma ZeroFolds(z: Word)
    requires z == 0
    ensures Fold(z) == 0
  {
    NoBits(z, Width());
    var b := ToBits(z, Width());
    forall i | 0 <= i < |b| ensures FoldBits(b)[i] == b[i] {
      assert i + By() < |b| ==> !b[i + By()];
    }
    assert FoldBits(b) == b;
  }

  lemma {:induction false} NoBits(z: nat, k: nat)
    requires z == 0
    ensures Value(ToBits(z, k)) == 0 && forall i :: 0 <= i < k ==> !ToBits(z, k)[i]
  {
    if k > 0 {
      NoBits(z, k - 1);
      assert ToBits(z, k)[1..] == ToBits(z, k - 1);
    }
  }
}
