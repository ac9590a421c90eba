/** Byte-addressed memory: the mapped addresses and their bytes, and little-endian words in it. */
module ByteMemory {
  import opened Machine

  type byte = b: nat | b < 256

  type Mem = map<nat, byte>

  predicate Mapped(m: Mem, a: nat, n: nat) {
    forall k :: a <= k < a + n ==> k in m
  }

  /** The byte at an address; unmapped addresses read as 0 in specifications only. */
  function Get(m: Mem, a: nat): byte {
    if a in m then m[a] else 0
  }

  /** Equal bytes at an address; a name of its own keeps the solver from comparing all bytes. */
  predicate SameAt(m: Mem, m': Mem, k: nat) {
    Get(m', k) == Get(m, k)
  }

  ghost predicate SameOutside(m: Mem, m': Mem, from: nat, to: nat) {
    forall k: nat :: k < from || k >= to ==> SameAt(m, m', k)
  }

  lemma SameOutsideTrans(m: Mem, m1: Mem, m2: Mem, from: nat, to: nat)
    requires SameOutside(m, m1, from, to) && SameOutside(m1, m2, from, to)
    ensures SameOutside(m, m2, from, to)
  {
    forall k: nat | k < from || k >= to ensures SameAt(m, m2, k) {
      assert SameAt(m, m1, k) && SameAt(m1, m2, k);
    }
  }

  function Bytes(m: Mem, a: nat, n: nat): (s: seq<byte>)
    ensures |s| == n
    ensures forall k :: 0 <= k < n ==> s[k] == Get(m, a + k)
  {
    if n == 0 then [] else Bytes(m, a, n - 1) + [Get(m, a + n - 1)]
  }

  lemma {:induction false} BytesSame(m: Mem, m': Mem, a: nat, n: nat)
    requires forall k: nat :: a <= k < a + n ==> SameAt(m, m', k)
    ensures Bytes(m', a, n) == Bytes(m, a, n)
  {
    if n > 0 {
      BytesSame(m, m', a, n - 1);
      assert SameAt(m, m', a + n - 1);
    }
  }

  function Load(m: Mem, a: nat, n: nat): nat
    decreases n
  {
    if n == 0 then 0 else Get(m, a) + 256 * Load(m, a + 1, n - 1)
  }

  function Store(m: Mem, a: nat, v: nat, n: nat): (m': Mem)
    requires Mapped(m, a, n)
    ensures m'.Keys == m.Keys
    ensures forall k: nat :: k < a || k >= a + n ==> Get(m', k) == Get(m, k)
    decreases n
  {
    if n == 0 then m else Store(m[a := v % 256], a + 1, v / 256, n - 1)
  }

  function Limit(n: nat): nat {
    if n == 0 then 1 else 256 * Limit(n - 1)
  }

  lemma {:induction false} LoadStore(m: Mem, a: nat, v: nat, n: nat)
    requires Mapped(m, a, n) && v < Limit(n)
    ensures Load(Store(m, a, v, n), a, n) == v
    decreases n
  {
    if n > 0 {
      LoadStore(m[a := v % 256], a + 1, v / 256, n - 1);
    }
  }

  lemma {:induction false} LoadSame(m: Mem, m': Mem, a: nat, n: nat)
    requires forall k: nat :: a <= k < a + n ==> SameAt(m, m', k)
    ensures Load(m', a, n) == Load(m, a, n)
    decreases n
  {
    if n > 0 {
      assert SameAt(m, m', a);
      LoadSame(m, m', a + 1, n - 1);
    }
  }

  /** The bytes of a word: a function, so that the verifier does not unroll loads of 8 bytes. */
  function WordBytes(): nat { 8 }

  /** A 64-bit word. */
  function Word(m: Mem, a: nat): nat {
    Load(m, a, WordBytes())
  }

  function SetWord(m: Mem, a: nat, v: nat): (m': Mem)
    requires Mapped(m, a, 8) && v < WORD_LIMIT
    ensures m'.Keys == m.Keys && Word(m', a) == v
    ensures SameOutside(m, m', a, a + 8)
  {
    assert Limit(8) == WORD_LIMIT;
    LoadStore(m, a, v, WordBytes());
    Store(m, a, v, WordBytes())
  }

  function SetByte(m: Mem, a: nat, v: byte): (m': Mem)
    requires a in m
    ensures m'.Keys == m.Keys && Get(m', a) == v
    ensures SameOutside(m, m', a, a + 1)
  {
    m[a := v]
  }

  lemma WordSame(m: Mem, m': Mem, a: nat)
    requires forall k: nat :: a <= k < a + 8 ==> SameAt(m, m', k)
    ensures Word(m', a) == Word(m, a)
  {
    LoadSame(m, m', a, WordBytes());
  }

  /** `m'` is `m` with the word at `a` written. */
  ghost predicate WordSet(m: Mem, a: nat, v: nat, m': Mem) {
    m'.Keys == m.Keys && Word(m', a) == v && SameOutside(m, m', a, a + 8)
  }
}
