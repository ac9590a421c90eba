/** What the byte routines of src/misc/mem.c do to memory, one byte at a time; an address is an
    index, and a 32-bit access works on four bytes, lowest first. */
module MemModel {
  import opened ByteMemory

  type Memory = seq<byte>

  function Put(m: Memory, i: nat, v: byte): (r: Memory)
    requires i < |m|
    ensures |r| == |m|
  {
    m[i := v]
  }

  /** `memset`. */
  function Filled(m: Memory, d: nat, c: byte, n: nat): (r: Memory)
    requires d + n <= |m|
    ensures |r| == |m|
    decreases n
  {
    if n == 0 then m else Filled(Put(m, d, c), d + 1, c, n - 1)
  }

  /** `memcpy`, and `memmove` towards lower addresses: first byte first. */
  function Forward(m: Memory, d: nat, s: nat, n: nat): (r: Memory)
    requires d + n <= |m| && s + n <= |m|
    ensures |r| == |m|
    decreases n
  {
    if n == 0 then m else Forward(Put(m, d, m[s]), d + 1, s + 1, n - 1)
  }

  /** `memmove` towards higher addresses: last byte first. */
  function Backward(m: Memory, d: nat, s: nat, n: nat): (r: Memory)
    requires d + n <= |m| && s + n <= |m|
    ensures |r| == |m|
    decreases n
  {
    if n == 0 then m else Backward(Put(m, d + n - 1, m[s + n - 1]), d, s, n - 1)
  }

  /** `memcmp`. */
  function Compared(m: Memory, p: nat, q: nat, n: nat): int
    requires p + n <= |m| && q + n <= |m|
    decreases n
  {
    if n == 0 then 0 else if m[p] != m[q] then m[p] - m[q] else Compared(m, p + 1, q + 1, n - 1)
  }

  // ----- what they mean -----

  /** The bytes `s .. s + n` as they were, now also at `d .. d + n`, and nothing else changed. */
  ghost predicate Moved(m: Memory, d: nat, s: nat, n: nat, r: Memory)
    requires d + n <= |m| && s + n <= |m|
  {
    |r| == |m| && forall i :: 0 <= i < |m| ==> MovedAt(m, d, s, n, r, i)
  }

  ghost predicate MovedAt(m: Memory, d: nat, s: nat, n: nat, r: Memory, i: nat)
    requires d + n <= |m| && s + n <= |m| && i < |m| && i < |r|
  {
    r[i] == if d <= i < d + n then m[s + i - d] else m[i]
  }

  lemma {:induction false} FilledMeans(m: Memory, d: nat, c: byte, n: nat)
    requires d + n <= |m|
    ensures forall i :: 0 <= i < |m| ==> Filled(m, d, c, n)[i] == if d <= i < d + n then c else m[i]
    decreases n
  {
    if n > 0 {
      FilledMeans(Put(m, d, c), d + 1, c, n - 1);
    }
  }

  /** Copying first byte first moves the range unless it runs into bytes it has yet to read. */
  lemma {:induction false} ForwardMoves(m: Memory, d: nat, s: nat, n: nat)
    requires d + n <= |m| && s + n <= |m| && (d <= s || s + n <= d)
    ensures Moved(m, d, s, n, Forward(m, d, s, n))
    decreases n
  {
    if n > 0 {
      var m', r := Put(m, d, m[s]), Forward(m, d, s, n);
      ForwardMoves(m', d + 1, s + 1, n - 1);
      forall i | 0 <= i < |m| ensures MovedAt(m, d, s, n, r, i) {
        assert MovedAt(m', d + 1, s + 1, n - 1, r, i);
      }
    }
  }

  /** Copying last byte first moves the range when it lies at or above its source. */
  lemma {:induction false} BackwardMoves(m: Memory, d: nat, s: nat, n: nat)
    requires d + n <= |m| && s + n <= |m| && (s <= d || d + n <= s)
    ensures Moved(m, d, s, n, Backward(m, d, s, n))
    decreases n
  {
    if n > 0 {
      var m', r := Put(m, d + n - 1, m[s + n - 1]), Backward(m, d, s, n);
      BackwardMoves(m', d, s, n - 1);
      forall i | 0 <= i < |m| ensures MovedAt(m, d, s, n, r, i) {
        assert MovedAt(m', d, s, n - 1, r, i);
      }
    }
  }

  /** The ranges first differ at offset `k`, by `v`. */
  ghost predicate DifferAt(m: Memory, p: nat, q: nat, k: nat, v: int)
    requires p + k < |m| && q + k < |m|
  {
    && (forall j :: 0 <= j < k ==> SameByte(m, p, q, j))
    && v == (m[p + k] as int) - (m[q + k] as int) != 0
  }

  ghost predicate SameByte(m: Memory, p: nat, q: nat, j: nat)
    requires p + j < |m| && q + j < |m|
  {
    m[p + j] == m[q + j]
  }

  /** Zero means equal ranges; otherwise the value is that of the first difference. */
  lemma {:induction false} ComparedMeans(m: Memory, p: nat, q: nat, n: nat)
    requires p + n <= |m| && q + n <= |m|
    ensures Compared(m, p, q, n) == 0 <==> forall j :: 0 <= j < n ==> SameByte(m, p, q, j)
    ensures Compared(m, p, q, n) != 0 ==> exists k :: 0 <= k < n && DifferAt(m, p, q, k, Compared(m, p, q, n))
    decreases n
  {
    if n > 0 {
      var v := Compared(m, p, q, n);
      if m[p] != m[q] {
        assert !SameByte(m, p, q, 0) && DifferAt(m, p, q, 0, v);
      } else {
        ComparedMeans(m, p + 1, q + 1, n - 1);
        assert SameByte(m, p, q, 0);
        if v != 0 {
          var k :| 0 <= k < n - 1 && DifferAt(m, p + 1, q + 1, k, v);
          forall j | 0 <= j < k + 1 ensures SameByte(m, p, q, j) {
            assert j > 0 ==> SameByte(m, p + 1, q + 1, j - 1);
          }
          assert DifferAt(m, p, q, k + 1, v) && !SameByte(m, p, q, k + 1);
        } else {
          forall j | 0 <= j < n ensures SameByte(m, p, q, j) {
            assert j > 0 ==> SameByte(m, p + 1, q + 1, j - 1);
          }
        }
      }
    }
  }

  // ----- words -----

  function Word32(m: Memory, i: nat): nat
    requires i + 4 <= |m|
  {
    (m[i] as nat) + 0x100 * (m[i + 1] as nat) + 0x1_0000 * (m[i + 2] as nat) + 0x100_0000 * (m[i + 3] as nat)
  }

  function Put32(m: Memory, i: nat, v: nat): (r: Memory)
    requires i + 4 <= |m|
    ensures |r| == |m|
  {
    Put(Put(Put(Put(m, i, v % 0x100), i + 1, v / 0x100 % 0x100), i + 2, v / 0x1_0000 % 0x100), i + 3, v / 0x100_0000 % 0x100)
  }

  /** Four bytes, all read before any is written. */
  function Quad(m: Memory, d: nat, s: nat): (r: Memory)
    requires d + 4 <= |m| && s + 4 <= |m|
    ensures |r| == |m|
  {
    Put(Put(Put(Put(m, d, m[s]), d + 1, m[s + 1]), d + 2, m[s + 2]), d + 3, m[s + 3])
  }

  /** The lowest base-256 digit of a number, and the rest. */
  lemma LowDigit(b: byte, rest: nat)
    ensures ((b as nat) + 0x100 * rest) % 0x100 == b && ((b as nat) + 0x100 * rest) / 0x100 == rest
  {}

  lemma Shifts(w: nat)
    ensures w / 0x1_0000 == w / 0x100 / 0x100 && w / 0x100_0000 == w / 0x100 / 0x100 / 0x100
  {}

  lemma WordBytesBack(b0: byte, b1: byte, b2: byte, b3: byte)
    ensures
      var w := (b0 as nat) + 0x100 * (b1 as nat) + 0x1_0000 * (b2 as nat) + 0x100_0000 * (b3 as nat);
      w % 0x100 == b0 && w / 0x100 % 0x100 == b1 && w / 0x1_0000 % 0x100 == b2 && w / 0x100_0000 % 0x100 == b3
  {
    var w3: nat := b3;
    var w2 := (b2 as nat) + 0x100 * w3;
    var w1 := (b1 as nat) + 0x100 * w2;
    var w := (b0 as nat) + 0x100 * w1;
    LowDigit(b0, w1);
    LowDigit(b1, w2);
    LowDigit(b2, w3);
    Shifts(w);
  }

  lemma WordCopy(m: Memory, d: nat, s: nat)
    requires d + 4 <= |m| && s + 4 <= |m|
    ensures Put32(m, d, Word32(m, s)) == Quad(m, d, s)
  {
    WordBytesBack(m[s], m[s + 1], m[s + 2], m[s + 3]);
  }

  lemma WordsDiffer(m: Memory, p: nat, q: nat)
    requires p + 4 <= |m| && q + 4 <= |m|
    ensures Word32(m, p) == Word32(m, q) <==> m[p] == m[q] && m[p + 1] == m[q + 1] && m[p + 2] == m[q + 2] && m[p + 3] == m[q + 3]
  {
    WordBytesBack(m[p], m[p + 1], m[p + 2], m[p + 3]);
    WordBytesBack(m[q], m[q + 1], m[q + 2], m[q + 3]);
  }

  predicate WordApart(d: nat, s: nat) {
    d == s || d + 4 <= s || s + 4 <= d
  }

  lemma AlignedApart(d: nat, s: nat, k: nat)
    requires (d + k) % 4 == 0 && (s + k) % 4 == 0
    ensures WordApart(d, s)
  {}

  /** Aligned pointers that differ are at least a word apart, so a word step is four byte steps. */
  lemma ForwardQuad(m: Memory, d: nat, s: nat, n: nat)
    requires d + n <= |m| && s + n <= |m| && n >= 4 && WordApart(d, s)
    ensures Forward(m, d, s, n) == Forward(Quad(m, d, s), d + 4, s + 4, n - 4)
  {
    var m1 := Put(m, d, m[s]);
    var m2 := Put(m1, d + 1, m1[s + 1]);
    var m3 := Put(m2, d + 2, m2[s + 2]);
    var m4 := Put(m3, d + 3, m3[s + 3]);
    assert Forward(m, d, s, n) == Forward(m1, d + 1, s + 1, n - 1) == Forward(m2, d + 2, s + 2, n - 2);
    assert Forward(m2, d + 2, s + 2, n - 2) == Forward(m3, d + 3, s + 3, n - 3) == Forward(m4, d + 4, s + 4, n - 4);
    assert m4 == Quad(m, d, s);
  }

  lemma BackwardQuad(m: Memory, d: nat, s: nat, n: nat)
    requires d + n <= |m| && s + n <= |m| && n >= 4 && WordApart(d, s)
    ensures Backward(m, d, s, n) == Backward(Quad(m, d + n - 4, s + n - 4), d, s, n - 4)
  {
    var m1 := Put(m, d + n - 1, m[s + n - 1]);
    var m2 := Put(m1, d + n - 2, m1[s + n - 2]);
    var m3 := Put(m2, d + n - 3, m2[s + n - 3]);
    var m4 := Put(m3, d + n - 4, m3[s + n - 4]);
    assert Backward(m, d, s, n) == Backward(m1, d, s, n - 1) == Backward(m2, d, s, n - 2);
    assert Backward(m2, d, s, n - 2) == Backward(m3, d, s, n - 3) == Backward(m4, d, s, n - 4);
    assert m4 == Quad(m, d + n - 4, s + n - 4);
  }

  lemma FilledQuad(m: Memory, d: nat, c: byte, n: nat)
    requires d + n <= |m| && n >= 4
    ensures Filled(m, d, c, n) == Filled(Put32(m, d, c * 0x101_0101), d + 4, c, n - 4)
  {
    WordBytesBack(c, c, c, c);
    var m1 := Put(m, d, c);
    var m2 := Put(m1, d + 1, c);
    var m3 := Put(m2, d + 2, c);
    assert Filled(m, d, c, n) == Filled(m1, d + 1, c, n - 1) == Filled(m2, d + 2, c, n - 2);
    assert Filled(m2, d + 2, c, n - 2) == Filled(m3, d + 3, c, n - 3) == Filled(Put(m3, d + 3, c), d + 4, c, n - 4);
    assert c * 0x101_0101 == c + 0x100 * c + 0x1_0000 * c + 0x100_0000 * c;
  }

  lemma ComparedQuad(m: Memory, p: nat, q: nat, n: nat)
    requires p + n <= |m| && q + n <= |m| && n >= 4 && Word32(m, p) == Word32(m, q)
    ensures Compared(m, p, q, n) == Compared(m, p + 4, q + 4, n - 4)
  {
    WordsDiffer(m, p, q);
    assert Compared(m, p, q, n) == Compared(m, p + 1, q + 1, n - 1) == Compared(m, p + 2, q + 2, n - 2);
    assert Compared(m, p + 2, q + 2, n - 2) == Compared(m, p + 3, q + 3, n - 3) == Compared(m, p + 4, q + 4, n - 4);
  }
}
