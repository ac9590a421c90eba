/** src/misc/mem.c: the byte loops and the loops that use 32-bit accesses where alignment allows.
    Each is proved to leave memory as the byte-at-a-time function says, for every alignment,
    length and overlap. */
module MemRoutines {
  import opened ByteMemory
  import opened MemModel

  /** `(uint8_t)c`. */
  function Low(c: int): (b: byte)
    ensures (0 <= c < 256 ==> b as int == c) && (c - b as int) % 256 == 0
  {
    c % 256
  }

  /** The byte depends on the argument modulo 256 only. */
  lemma LowOnly(c: int, d: int)
    ensures Low(c) == Low(d) <==> (c - d) % 256 == 0
  {}

  method SetAt(mem: array<byte>, i: nat, v: byte)
    requires i < mem.Length
    modifies mem
    ensures mem[..] == Put(old(mem[..]), i, v)
  {
    mem[i] := v;
  }

  method CopyAt(mem: array<byte>, d: nat, s: nat)
    requires d < mem.Length && s < mem.Length
    modifies mem
    ensures mem[..] == Put(old(mem[..]), d, old(mem[..])[s])
  {
    mem[d] := mem[s];
  }

  /** A 32-bit load. */
  method Load32(mem: array<byte>, i: nat) returns (w: nat)
    requires i + 4 <= mem.Length
    ensures w == Word32(mem[..], i)
  {
    w := (mem[i] as nat) + 0x100 * (mem[i + 1] as nat) + 0x1_0000 * (mem[i + 2] as nat) + 0x100_0000 * (mem[i + 3] as nat);
  }

  /** A 32-bit store. */
  method Store32(mem: array<byte>, i: nat, w: nat)
    requires i + 4 <= mem.Length
    modifies mem
    ensures mem[..] == Put32(old(mem[..]), i, w)
  {
    mem[i], mem[i + 1], mem[i + 2], mem[i + 3] := w % 0x100, w / 0x100 % 0x100, w / 0x1_0000 % 0x100, w / 0x100_0000 % 0x100;
  }

  method CopyWord(mem: array<byte>, d: nat, s: nat)
    requires d + 4 <= mem.Length && s + 4 <= mem.Length
    modifies mem
    ensures mem[..] == Quad(old(mem[..]), d, s)
  {
    WordCopy(mem[..], d, s);
    var w := Load32(mem, s);
    Store32(mem, d, w);
  }

  // ----- byte loops -----

  method Memset(mem: array<byte>, dst: nat, c: int, n: nat)
    requires dst + n <= mem.Length
    modifies mem
    ensures mem[..] == Filled(old(mem[..]), dst, Low(c), n)
    ensures 0 <= c < 256 ==> forall j :: dst <= j < dst + n ==> mem[j] as int == c
  {
    var p: nat, k: nat := dst, n;
    FilledMeans(mem[..], dst, Low(c), n);
    while k > 0
      invariant p + k <= mem.Length && Filled(old(mem[..]), dst, Low(c), n) == Filled(mem[..], p, Low(c), k)
    {
      SetAt(mem, p, Low(c));
      p, k := p + 1, k - 1;
    }
  }

  method Memcpy(mem: array<byte>, dst: nat, src: nat, n: nat)
    requires dst + n <= mem.Length && src + n <= mem.Length
    modifies mem
    ensures mem[..] == Forward(old(mem[..]), dst, src, n)
  {
    var d: nat, s: nat, k: nat := dst, src, n;
    while k > 0
      invariant d + k <= mem.Length && s + k <= mem.Length
      invariant Forward(old(mem[..]), dst, src, n) == Forward(mem[..], d, s, k)
    {
      CopyAt(mem, d, s);
      d, s, k := d + 1, s + 1, k - 1;
    }
  }

  /** The loop from the end of `memmove`. */
  method CopyDown(mem: array<byte>, dst: nat, src: nat, n: nat)
    requires dst + n <= mem.Length && src + n <= mem.Length
    modifies mem
    ensures mem[..] == Backward(old(mem[..]), dst, src, n)
  {
    var d: nat, s: nat, k: nat := dst + n, src + n, n;
    while k > 0
      invariant d == dst + k <= mem.Length && s == src + k <= mem.Length
      invariant Backward(old(mem[..]), dst, src, n) == Backward(mem[..], dst, src, k)
    {
      CopyAt(mem, d - 1, s - 1);
      d, s, k := d - 1, s - 1, k - 1;
    }
  }

  /** `memmove`: right for every overlap. */
  method Memmove(mem: array<byte>, dst: nat, src: nat, n: nat)
    requires dst + n <= mem.Length && src + n <= mem.Length
    modifies mem
    ensures Moved(old(mem[..]), dst, src, n, mem[..])
  {
    if dst < src {
      ForwardMoves(mem[..], dst, src, n);
      Memcpy(mem, dst, src, n);
    } else {
      BackwardMoves(mem[..], dst, src, n);
      CopyDown(mem, dst, src, n);
    }
  }

  method Memcmp(mem: array<byte>, a: nat, b: nat, n: nat) returns (r: int)
    requires a + n <= mem.Length && b + n <= mem.Length
    ensures r == Compared(mem[..], a, b, n)
  {
    var p: nat, q: nat, k: nat := a, b, n;
    while k > 0
      invariant p + k <= mem.Length && q + k <= mem.Length && Compared(mem[..], a, b, n) == Compared(mem[..], p, q, k)
    {
      if mem[p] != mem[q] {
        return (mem[p] as int) - (mem[q] as int);
      }
      p, q, k := p + 1, q + 1, k - 1;
    }
    return 0;
  }

  // ----- word loops -----

  /** The word pattern `memset32` builds: a byte repeated four times. */
  function Pattern(c: byte): nat {
    var v: nat := c;
    var v2 := v + v * 0x100;
    v2 + v2 * 0x1_0000
  }

  method Memset32(mem: array<byte>, dst: nat, c: int, n: nat)
    requires dst + n <= mem.Length
    modifies mem
    ensures mem[..] == Filled(old(mem[..]), dst, Low(c), n)
  {
    var p: nat, k: nat := dst, n;
    while k > 0 && p % 4 != 0
      invariant p + k <= mem.Length && Filled(old(mem[..]), dst, Low(c), n) == Filled(mem[..], p, Low(c), k)
    {
      SetAt(mem, p, Low(c));
      p, k := p + 1, k - 1;
    }
    while k >= 4
      invariant p + k <= mem.Length && Filled(old(mem[..]), dst, Low(c), n) == Filled(mem[..], p, Low(c), k)
    {
      FilledQuad(mem[..], p, Low(c), k);
      Store32(mem, p, Pattern(Low(c)));
      p, k := p + 4, k - 4;
    }
    Memset(mem, p, c, k);
  }

  /** The word loop of `memcpy32` and of `memmove32` towards lower addresses. */
  method WordsUp(mem: array<byte>, dst: nat, src: nat, n: nat) returns (d: nat, s: nat, k: nat)
    requires dst + n <= mem.Length && src + n <= mem.Length && WordApart(dst, src)
    modifies mem
    ensures d + k <= mem.Length && s + k <= mem.Length
    ensures Forward(old(mem[..]), dst, src, n) == Forward(mem[..], d, s, k)
  {
    d, s, k := dst, src, n;
    while k >= 4
      invariant d + k <= mem.Length && s + k <= mem.Length && WordApart(d, s)
      invariant Forward(old(mem[..]), dst, src, n) == Forward(mem[..], d, s, k)
    {
      ForwardQuad(mem[..], d, s, k);
      CopyWord(mem, d, s);
      d, s, k := d + 4, s + 4, k - 4;
    }
  }

  /** The word loop of `memmove32` towards higher addresses, from the end down. */
  method WordsDown(mem: array<byte>, dst: nat, src: nat, n: nat) returns (k: nat)
    requires dst + n <= mem.Length && src + n <= mem.Length && WordApart(dst, src)
    modifies mem
    ensures k <= n && Backward(old(mem[..]), dst, src, n) == Backward(mem[..], dst, src, k)
  {
    k := n;
    while k >= 4
      invariant k <= n && Backward(old(mem[..]), dst, src, n) == Backward(mem[..], dst, src, k)
    {
      BackwardQuad(mem[..], dst, src, k);
      CopyWord(mem, dst + k - 4, src + k - 4);
      k := k - 4;
    }
  }

  method Memcpy32(mem: array<byte>, dst: nat, src: nat, n: nat)
    requires dst + n <= mem.Length && src + n <= mem.Length
    modifies mem
    ensures mem[..] == Forward(old(mem[..]), dst, src, n)
  {
    var d: nat, s: nat, k: nat := dst, src, n;
    while k > 0 && d % 4 != 0
      invariant d + k <= mem.Length && s + k <= mem.Length
      invariant Forward(old(mem[..]), dst, src, n) == Forward(mem[..], d, s, k)
    {
      CopyAt(mem, d, s);
      d, s, k := d + 1, s + 1, k - 1;
    }
    if k >= 4 && s % 4 == 0 {
      AlignedApart(d, s, 0);
      d, s, k := WordsUp(mem, d, s, k);
    }
    Memcpy(mem, d, s, k);
  }

  /** The branch of `memmove32` that works down from the end. */
  method CopyDown32(mem: array<byte>, dst: nat, src: nat, n: nat)
    requires dst + n <= mem.Length && src + n <= mem.Length
    modifies mem
    ensures mem[..] == Backward(old(mem[..]), dst, src, n)
  {
    var d: nat, s: nat, k: nat := dst + n, src + n, n;
    while k > 0 && d % 4 != 0
      invariant d == dst + k <= mem.Length && s == src + k <= mem.Length
      invariant Backward(old(mem[..]), dst, src, n) == Backward(mem[..], dst, src, k)
    {
      CopyAt(mem, d - 1, s - 1);
      d, s, k := d - 1, s - 1, k - 1;
    }
    if k >= 4 && s % 4 == 0 {
      AlignedApart(dst, src, k);
      k := WordsDown(mem, dst, src, k);
    }
    CopyDown(mem, dst, src, k);
  }

  /** `memmove32`: right for every overlap and every alignment. */
  method Memmove32(mem: array<byte>, dst: nat, src: nat, n: nat)
    requires dst + n <= mem.Length && src + n <= mem.Length
    modifies mem
    ensures Moved(old(mem[..]), dst, src, n, mem[..])
  {
    if dst == src || n == 0 {
      assert forall i :: 0 <= i < mem.Length ==> MovedAt(old(mem[..]), dst, src, n, mem[..], i);
      return;
    }
    if dst < src {
      ForwardMoves(mem[..], dst, src, n);
      Memcpy32(mem, dst, src, n);
    } else {
      BackwardMoves(mem[..], dst, src, n);
      CopyDown32(mem, dst, src, n);
    }
  }

  /** `memcmp32`: exactly the value of `memcmp`. */
  method Memcmp32(mem: array<byte>, a: nat, b: nat, n: nat) returns (r: int)
    requires a + n <= mem.Length && b + n <= mem.Length
    ensures r == Compared(mem[..], a, b, n)
  {
    var p: nat, q: nat, k: nat := a, b, n;
    while k > 0 && (p % 4 != 0 || q % 4 != 0)
      invariant p + k <= mem.Length && q + k <= mem.Length && Compared(mem[..], a, b, n) == Compared(mem[..], p, q, k)
    {
      if mem[p] != mem[q] {
        return (mem[p] as int) - (mem[q] as int);
      }
      p, q, k := p + 1, q + 1, k - 1;
    }
    while k >= 4
      invariant p + k <= mem.Length && q + k <= mem.Length && Compared(mem[..], a, b, n) == Compared(mem[..], p, q, k)
    {
      var v := Load32(mem, p);
      var w := Load32(mem, q);
      if v != w {
        WordsDiffer(mem[..], p, q);
        r := FirstDifference(mem, p, q, k);
        return;
      }
      ComparedQuad(mem[..], p, q, k);
      p, q, k := p + 4, q + 4, k - 4;
    }
    r := Memcmp(mem, p, q, k);
  }

  /** The four comparisons of `memcmp32` once two words differ. */
  method FirstDifference(mem: array<byte>, p: nat, q: nat, ghost k: nat) returns (r: int)
    requires p + k <= mem.Length && q + k <= mem.Length && k >= 4
    requires mem[p] != mem[q] || mem[p + 1] != mem[q + 1] || mem[p + 2] != mem[q + 2] || mem[p + 3] != mem[q + 3]
    ensures r == Compared(mem[..], p, q, k)
  {
    if mem[p] != mem[q] {
      return (mem[p] as int) - (mem[q] as int);
    }
    assert Compared(mem[..], p, q, k) == Compared(mem[..], p + 1, q + 1, k - 1);
    if mem[p + 1] != mem[q + 1] {
      return (mem[p + 1] as int) - (mem[q + 1] as int);
    }
    assert Compared(mem[..], p + 1, q + 1, k - 1) == Compared(mem[..], p + 2, q + 2, k - 2);
    if mem[p + 2] != mem[q + 2] {
      return (mem[p + 2] as int) - (mem[q + 2] as int);
    }
    assert Compared(mem[..], p + 2, q + 2, k - 2) == Compared(mem[..], p + 3, q + 3, k - 3);
    return (mem[p + 3] as int) - (mem[q + 3] as int);
  }
}
