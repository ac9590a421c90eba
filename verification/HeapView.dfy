/** What a client of the user heap sees: each live pointer with the bytes of its block. */
module HeapView {
  import opened ByteMemory
  import opened BlockList

  type View = map<nat, seq<byte>>

  /** The view lists exactly the live blocks and their bytes. */
  ghost predicate Shows(m: Mem, bs: Blocks, c: View) {
    && (forall b: Block :: Seen(m, bs, c, b))
    && (forall p :: p in c ==> Backed(bs, c, p))
  }

  ghost predicate Seen(m: Mem, bs: Blocks, c: View, b: Block) {
    b in bs && !b.free ==> b.Ptr() in c && c[b.Ptr()] == Bytes(m, b.Ptr(), b.size)
  }

  ghost predicate Backed(bs: Blocks, c: View, p: nat)
    requires p in c
  {
    p >= HEADER_SIZE && Block(p - HEADER_SIZE, |c[p]|, false) in bs
  }

  /** The block of a live pointer. */
  lemma BlockOf(m: Mem, bs: Blocks, c: View, p: nat) returns (i: nat)
    requires Shows(m, bs, c) && p in c
    ensures i < |bs| && p >= HEADER_SIZE && bs[i] == Block(p - HEADER_SIZE, |c[p]|, false)
    ensures c[p] == Bytes(m, p, bs[i].size)
  {
    assert Backed(bs, c, p);
    i :| 0 <= i < |bs| && bs[i] == Block(p - HEADER_SIZE, |c[p]|, false);
    assert Seen(m, bs, c, bs[i]);
  }

  /** A live block lies below the end of the heap, so its size is a machine word. */
  lemma LiveSize(m: Mem, bs: Blocks, c: View, lo: nat, hi: nat, p: nat)
    requires Shows(m, bs, c) && Layout(bs, lo, hi) && p in c
    ensures |c[p]| < hi
  {
    var i := BlockOf(m, bs, c, p);
    assert PlacedAt(bs, lo, hi, i);
  }

  /** An edit that leaves block `i` live at `p` updates one key. */
  lemma ShowsPut(m: Mem, bs: Blocks, c: View, m': Mem, bs': Blocks, lo: nat, hi: nat, i: nat, p: nat)
    requires Shows(m, bs, c) && SameElse(m, bs, m', bs', p) && Layout(bs', lo, hi)
    requires i < |bs'| && !bs'[i].free && bs'[i].Ptr() == p
    ensures Shows(m', bs', c[p := Bytes(m', p, bs'[i].size)])
  {
    var c' := c[p := Bytes(m', p, bs'[i].size)];
    forall b: Block ensures Seen(m', bs', c', b) {
      if b in bs' && !b.free {
        if b.Ptr() == p {
          var j :| 0 <= j < |bs'| && bs'[j] == b;
          SameAddr(bs', lo, hi, i, j);
        } else {
          SeenElse(m, bs, c, m', bs', p, b);
        }
      }
    }
    forall q | q in c' ensures Backed(bs', c', q) {
      if q != p {
        BackedElse(m, bs, c, m', bs', p, q);
      }
    }
  }

  /** An edit that leaves block `i` free drops its key. */
  lemma ShowsDrop(m: Mem, bs: Blocks, c: View, m': Mem, bs': Blocks, lo: nat, hi: nat, i: nat, p: nat)
    requires Shows(m, bs, c) && SameElse(m, bs, m', bs', p) && Layout(bs', lo, hi)
    requires i < |bs'| && bs'[i].free && bs'[i].Ptr() == p
    ensures Shows(m', bs', c - {p})
  {
    var c' := c - {p};
    forall b: Block ensures Seen(m', bs', c', b) {
      if b in bs' && !b.free {
        var j :| 0 <= j < |bs'| && bs'[j] == b;
        assert b.Ptr() == p ==> j == i by {
          if b.Ptr() == p {
            SameAddr(bs', lo, hi, i, j);
          }
        }
        SeenElse(m, bs, c, m', bs', p, b);
      }
    }
    forall q | q in c' ensures Backed(bs', c', q) {
      BackedElse(m, bs, c, m', bs', p, q);
    }
  }

  lemma SeenElse(m: Mem, bs: Blocks, c: View, m': Mem, bs': Blocks, p: nat, b: Block)
    requires Shows(m, bs, c) && SameElse(m, bs, m', bs', p) && b in bs' && !b.free && b.Ptr() != p
    ensures b.Ptr() in c && c[b.Ptr()] == Bytes(m', b.Ptr(), b.size)
  {
    assert KeptBlock(m, bs, m', bs', p, b) && Seen(m, bs, c, b);
    BytesSame(m, m', b.Ptr(), b.size);
  }

  lemma BackedElse(m: Mem, bs: Blocks, c: View, m': Mem, bs': Blocks, p: nat, q: nat)
    requires Shows(m, bs, c) && SameElse(m, bs, m', bs', p) && q in c && q != p
    ensures q >= HEADER_SIZE && Block(q - HEADER_SIZE, |c[q]|, false) in bs'
  {
    assert Backed(bs, c, q);
    assert KeptBlock(m, bs, m', bs', p, Block(q - HEADER_SIZE, |c[q]|, false));
  }

  /** A pointer that no live block has is not in the view. */
  lemma NotShown(m: Mem, bs: Blocks, c: View, lo: nat, hi: nat, p: nat)
    requires Shows(m, bs, c) && Layout(bs, lo, hi)
    requires p <= lo || p > hi || exists i :: 0 <= i < |bs| && bs[i].free && bs[i].Ptr() == p
    ensures p !in c
  {
    if p in c {
      var j := BlockOf(m, bs, c, p);
      assert PlacedAt(bs, lo, hi, j);
      if lo < p <= hi {
        var i :| 0 <= i < |bs| && bs[i].free && bs[i].Ptr() == p;
        SameAddr(bs, lo, hi, i, j);
        assert false;
      }
      assert false;
    }
  }

  // ----- the effects of the operations on the view -----

  /** The client got `p`: new, aligned, at least `size` bytes, and nothing else changed. */
  ghost predicate Allocated(before: View, after: View, p: nat, size: nat) {
    && p !in before && p in after && p % 8 == 0 && |after[p]| >= size
    && after == before[p := after[p]]
  }

  /** Only the bytes of `p` past `keep` and the length of its block may have changed. */
  ghost predicate Resized(before: View, after: View, p: nat, keep: nat) {
    && p in before && p in after && after == before[p := after[p]]
    && keep <= |before[p]| && keep <= |after[p]| && after[p][..keep] == before[p][..keep]
  }

  /** A block past all others is a new allocation. */
  lemma NewBlockShown(m: Mem, bs: Blocks, c: View, lo: nat, brk: nat, m': Mem, bs': Blocks, hi: nat, p: nat, size: nat)
    requires Shows(m, bs, c) && Layout(bs, lo, brk) && p > brk && p % 8 == 0
    requires SameElse(m, bs, m', bs', p) && Layout(bs', lo, hi)
    requires |bs| < |bs'| && !bs'[|bs|].free && bs'[|bs|].Ptr() == p && bs'[|bs|].size == size
    ensures Shows(m', bs', c[p := Bytes(m', p, size)]) && Allocated(c, c[p := Bytes(m', p, size)], p, size)
  {
    NotShown(m, bs, c, lo, brk, p);
    ShowsPut(m, bs, c, m', bs', lo, hi, |bs|, p);
  }

  /** A free block that became live is a new allocation. */
  lemma TakenShown(m: Mem, bs: Blocks, c: View, lo: nat, hi: nat, m': Mem, bs': Blocks, i: nat, size: nat)
    requires Shows(m, bs, c) && Layout(bs, lo, hi) && i < |bs| && bs[i].free
    requires SameElse(m, bs, m', bs', bs[i].Ptr()) && Layout(bs', lo, hi)
    requires i < |bs'| && !bs'[i].free && bs'[i].addr == bs[i].addr && bs'[i].size >= size
    ensures
      var p := bs[i].Ptr();
      var c' := c[p := Bytes(m', p, bs'[i].size)];
      Shows(m', bs', c') && Allocated(c, c', p, size)
  {
    assert PlacedAt(bs, lo, hi, i);
    NotShown(m, bs, c, lo, hi, bs[i].Ptr());
    ShowsPut(m, bs, c, m', bs', lo, hi, i, bs[i].Ptr());
  }

  lemma BytesPrefix(m: Mem, m': Mem, p: nat, n: nat, n': nat, keep: nat)
    requires keep <= n && keep <= n'
    requires forall k: nat :: p <= k < p + keep ==> SameAt(m, m', k)
    ensures Bytes(m', p, n')[..keep] == Bytes(m, p, n)[..keep]
  {
    forall k | 0 <= k < keep ensures Bytes(m', p, n')[k] == Bytes(m, p, n)[k] {
      assert SameAt(m, m', p + k);
    }
  }

  function Patched(s: seq<byte>, k: nat, v: byte): seq<byte>
    requires k < |s|
  {
    s[k := v]
  }

  lemma BytesPoke(m: Mem, m': Mem, p: nat, n: nat, k: nat, v: byte)
    requires k < n && ByteSet(m, p + k, v, m')
    ensures Bytes(m', p, n) == Patched(Bytes(m, p, n), k, v)
  {
    forall j | 0 <= j < n ensures Bytes(m', p, n)[j] == Patched(Bytes(m, p, n), k, v)[j] {
      if j != k {
        assert SameAt(m, m', p + j);
      }
    }
  }

  /** Pointer `p` became `q` with at least `size` bytes; the bytes both blocks hold are the same and
      no other pointer changed. */
  ghost predicate Reallocated(before: View, after: View, p: nat, q: nat, size: nat) {
    && p in before && q in after && q % 8 == 0 && |after[q]| >= size
    && (q == p || q !in before)
    && after == (before - {p})[q := after[q]]
    && forall k :: 0 <= k < size && k < |before[p]| ==> after[q][k] == before[p][k]
  }

  lemma InPlace(before: View, after: View, p: nat, keep: nat, size: nat)
    requires Resized(before, after, p, keep) && p % 8 == 0 && |after[p]| >= size
    requires keep >= size || keep >= |before[p]|
    ensures Reallocated(before, after, p, p, size)
  {
    assert after == (before - {p})[p := after[p]];
    forall k | 0 <= k < size && k < |before[p]| ensures after[p][k] == before[p][k] {
      assert after[p][k] == after[p][..keep][k] == before[p][..keep][k];
    }
  }

  lemma ResizedTwice(a: View, b: View, c: View, p: nat, k1: nat, k2: nat)
    requires Resized(a, b, p, k1) && Resized(b, c, p, k2)
    ensures Resized(a, c, p, if k1 < k2 then k1 else k2)
  {
    var k := if k1 < k2 then k1 else k2;
    assert a[p][..k] == a[p][..k1][..k] == b[p][..k1][..k] == b[p][..k];
    assert b[p][..k] == b[p][..k2][..k] == c[p][..k2][..k] == c[p][..k];
  }

  /** Allocating elsewhere, copying and freeing. */
  lemma MovedAway(b: View, c: View, d: View, p: nat, q: nat, n: nat, size: nat)
    requires p in b && Allocated(b, c, q, size)
    requires n <= |b[p]| && n <= |c[q]| && (n == |b[p]| || n >= size)
    requires q in d && |d[q]| == |c[q]| && d == c[q := d[q]] && d[q][..n] == b[p][..n]
    ensures Reallocated(b, d - {p}, p, q, size)
  {
    var e := d - {p};
    assert e == (b - {p})[q := e[q]];
    forall k | 0 <= k < size && k < |b[p]| ensures e[q][k] == b[p][k] {
      assert e[q][k] == d[q][..n][k] == b[p][..n][k];
    }
  }

  lemma ReallocatedGrown(a: View, b: View, c: View, p: nat, q: nat, size: nat)
    requires p in a && Resized(a, b, p, |a[p]|) && Reallocated(b, c, p, q, size) && q != p
    ensures Reallocated(a, c, p, q, size)
  {
    assert b - {p} == a - {p};
    forall k | 0 <= k < size && k < |a[p]| ensures c[q][k] == a[p][k] {
      assert b[p][k] == b[p][..|a[p]|][k] == a[p][..|a[p]|][k];
    }
  }
}
