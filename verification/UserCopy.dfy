/** `copy_to_user` and `copy_from_user`, src/userspace/syscall.c: page-wise copies that mean byte
    by byte access through the page table. */
module UserCopy {
  import opened Machine
  import opened Outcomes
  import opened ByteMemory
  import opened PageTables
  import opened TableProofs
  import opened Spaces

  /** May the user reach a page with these flags, and write it? */
  predicate Allows(flags: nat, write: bool) {
    flags % 2 == 1 && flags / 4 % 2 == 1 && (write ==> flags / 2 % 2 == 1)
  }

  /** The physical address of a user byte. */
  function Reach(pages: map<nat, Pte>, va: nat, write: bool): Option<nat> {
    if va < USER_TOP && Vpn(va) in pages && Allows(pages[Vpn(va)].flags, write)
    then Some(pages[Vpn(va)].frame * PAGE + va % PAGE)
    else None
  }

  /** Writing byte by byte, up to the first byte that cannot be written. */
  function WriteAll(pages: map<nat, Pte>, m: Mem, va: nat, bytes: seq<byte>): (Mem, bool)
    decreases |bytes|
  {
    if bytes == [] then (m, true)
    else
      match Reach(pages, va, true)
      case None => (m, false)
      case Some(a) => WriteAll(pages, m[a := bytes[0]], va + 1, bytes[1..])
  }

  /** Reading byte by byte, up to the first byte that cannot be read. */
  function ReadAll(pages: map<nat, Pte>, m: Mem, va: nat, n: nat): (seq<byte>, bool)
    decreases n
  {
    if n == 0 then ([], true)
    else
      match Reach(pages, va, false)
      case None => ([], false)
      case Some(a) =>
        var (rest, ok) := ReadAll(pages, m, va + 1, n - 1);
        ([Get(m, a)] + rest, ok)
  }

  // ----- one page at a time -----

  /** The bytes of a page are reached together and lie together. */
  lemma SamePage(pages: map<nat, Pte>, va: nat, k: nat, write: bool)
    requires va % PAGE + k < PAGE
    ensures (va + k) % PAGE == va % PAGE + k
    ensures Reach(pages, va, write).None? ==> Reach(pages, va + k, write).None?
    ensures Reach(pages, va, write).Some? ==> Reach(pages, va + k, write) == Some(Reach(pages, va, write).value + k)
  {
    assert (va + k) / PAGE == va / PAGE && (va + k) % PAGE == va % PAGE + k;
  }

  lemma {:induction false} WriteChunk(pages: map<nat, Pte>, m: Mem, va: nat, bytes: seq<byte>, chunk: nat, a: nat)
    requires chunk <= |bytes| && va % PAGE + chunk <= PAGE && (chunk > 0 ==> Reach(pages, va, true) == Some(a))
    ensures WriteAll(pages, m, va, bytes) == WriteAll(pages, Overwrite(m, a, bytes[..chunk]), va + chunk, bytes[chunk..])
    decreases chunk
  {
    if chunk > 0 {
      assert bytes[1..][chunk - 1..] == bytes[chunk..] && bytes[..chunk][1..] == bytes[1..][..chunk - 1];
      if chunk > 1 {
        SamePage(pages, va, 1, true);
        WriteChunk(pages, m[a := bytes[0]], va + 1, bytes[1..], chunk - 1, a + 1);
      } else {
        assert bytes[1..][..0] == [];
      }
    }
  }

  lemma BytesFirst(m: Mem, a: nat, n: nat, rest: seq<byte>)
    requires n > 0
    ensures Bytes(m, a, n) + rest == [Get(m, a)] + (Bytes(m, a + 1, n - 1) + rest)
  {
    assert Bytes(m, a, n) == [Get(m, a)] + Bytes(m, a + 1, n - 1);
  }

  lemma {:induction false} ReadChunk(pages: map<nat, Pte>, m: Mem, va: nat, n: nat, chunk: nat, a: nat)
    requires chunk <= n && (chunk > 0 ==> va % PAGE + chunk <= PAGE && Reach(pages, va, false) == Some(a))
    ensures ReadAll(pages, m, va, n) ==
      (Bytes(m, a, chunk) + ReadAll(pages, m, va + chunk, n - chunk).0, ReadAll(pages, m, va + chunk, n - chunk).1)
    decreases chunk
  {
    var rest := ReadAll(pages, m, va + chunk, n - chunk).0;
    if chunk == 0 {
      assert Bytes(m, a, 0) + rest == rest;
    } else {
      if chunk > 1 {
        SamePage(pages, va, 1, false);
      }
      ReadChunk(pages, m, va + 1, n - 1, chunk - 1, a + 1);
      BytesFirst(m, a, chunk, rest);
    }
  }

  // ----- the copies -----

  /** The checks both copies make on a page. */
  method Locate(space: Space, va: nat, write: bool) returns (a: Option<nat>)
    requires space.Valid()
    ensures a == Reach(space.pages, va, write)
  {
    if va >= USER_TOP {
      return None;
    }
    BaseVpn(va);
    var page := space.Get(va - va % PAGE);
    if page.None? || !Allows(page.value.1, write) {
      return None;
    }
    a := Some(page.value.0 + va % PAGE);
  }

  lemma BaseVpn(va: nat)
    ensures Vpn(va - va % PAGE) == Vpn(va)
  {
    assert (va - va % PAGE) / PAGE == va / PAGE;
  }

  /** As much as is left of the page, or of the copy. */
  function Chunk(va: nat, left: nat): (c: nat)
    ensures c <= left && va % PAGE + c <= PAGE && (left > 0 ==> c > 0)
  {
    if PAGE - va % PAGE > left then left else PAGE - va % PAGE
  }

  /** `copy_to_user`. */
  method CopyToUser(space: Space, dst: nat, src: seq<byte>) returns (ok: bool)
    requires space.Valid()
    modifies space.ram
    ensures (space.ram.bytes, ok) == WriteAll(space.pages, old(space.ram.bytes), dst, src)
  {
    var va, rest := dst, src;
    ghost var pages := space.pages;
    while rest != []
      invariant WriteAll(pages, old(space.ram.bytes), dst, src) == WriteAll(pages, space.ram.bytes, va, rest)
      decreases |rest|
    {
      var chunk := Chunk(va, |rest|);
      var a := Locate(space, va, true);
      if a.None? {
        return false;
      }
      WriteChunk(pages, space.ram.bytes, va, rest, chunk, a.value);
      space.Write(a.value, rest[..chunk]);
      va, rest := va + chunk, rest[chunk..];
    }
    ok := true;
  }

  /** `copy_from_user`; `out` is the part of the kernel's buffer that was filled. */
  method CopyFromUser(space: Space, src: nat, n: nat) returns (out: seq<byte>, ok: bool)
    requires space.Valid()
    ensures (out, ok) == ReadAll(space.pages, space.ram.bytes, src, n)
  {
    var va, left := src, n;
    ghost var pages := space.pages;
    out := [];
    assert [] + ReadAll(pages, space.ram.bytes, va, left).0 == ReadAll(pages, space.ram.bytes, va, left).0;
    while left > 0
      invariant Continues(pages, space.ram.bytes, src, n, out, va, left)
    {
      var chunk := Chunk(va, left);
      var a := Locate(space, va, false);
      if a.None? {
        ReadStops(pages, space.ram.bytes, src, n, out, va, left);
        return out, false;
      }
      ReadMore(pages, space.ram.bytes, src, n, out, va, left, chunk, a.value);
      out := out + Bytes(space.ram.bytes, a.value, chunk);
      va, left := va + chunk, left - chunk;
    }
    ReadStops(pages, space.ram.bytes, src, n, out, va, left);
    ok := true;
  }

  /** What was read, followed by what is still to be read, is the whole. */
  ghost predicate Continues(pages: map<nat, Pte>, m: Mem, src: nat, n: nat, out: seq<byte>, va: nat, left: nat) {
    ReadAll(pages, m, src, n) == (out + ReadAll(pages, m, va, left).0, ReadAll(pages, m, va, left).1)
  }

  lemma ReadStops(pages: map<nat, Pte>, m: Mem, src: nat, n: nat, out: seq<byte>, va: nat, left: nat)
    requires Continues(pages, m, src, n, out, va, left) && (left == 0 || Reach(pages, va, false).None?)
    ensures ReadAll(pages, m, src, n) == (out, left == 0)
  {
    assert out + [] == out;
  }

  lemma ReadMore(pages: map<nat, Pte>, m: Mem, src: nat, n: nat, out: seq<byte>, va: nat, left: nat, chunk: nat, a: nat)
    requires Continues(pages, m, src, n, out, va, left) && chunk <= left && va % PAGE + chunk <= PAGE
    requires Reach(pages, va, false) == Some(a)
    ensures Continues(pages, m, src, n, out + Bytes(m, a, chunk), va + chunk, left - chunk)
  {
    ReadChunk(pages, m, va, left, chunk, a);
    var rest := ReadAll(pages, m, va + chunk, left - chunk).0;
    assert out + (Bytes(m, a, chunk) + rest) == out + Bytes(m, a, chunk) + rest;
  }

  // ----- what the hardware would do -----

  /** An entry that lets the processor go on in user mode. */
  predicate Admits(e: Pte, write: bool) {
    Present(e) && e.flags / 4 % 2 == 1 && (write ==> e.flags / 2 % 2 == 1)
  }

  /** The processor, in user mode, may access the address: all four entries admit it (section 4.6 of
      volume 3A of the Intel Software Developer's Manual). */
  predicate MmuAllows(t: Tables, root: nat, va: nat, write: bool) {
    && root in t && Admits(t[root][Slot(va, 4)], write)
    && var dir := t[root][Slot(va, 4)].frame;
    && dir in t && Admits(t[dir][Slot(va, 3)], write)
    && var pd := t[dir][Slot(va, 3)].frame;
    && pd in t && Admits(t[pd][Slot(va, 2)], write)
    && var pt := t[pd][Slot(va, 2)].frame;
    pt in t && Admits(t[pt][Slot(va, 1)], write)
  }

  /** On a path that does not limit the user the last entry decides. */
  lemma LeafDecides(t: Tables, lab: Labels, root: nat, va: nat, write: bool)
    requires Tree(t, lab) && IsRoot(lab, root) && Passes(t, root, va, 4, true)
    ensures MmuAllows(t, root, va, write) <==> Lookup(t, root, va).Some? && Admits(Lookup(t, root, va).value, write)
  {
    assert EntryOk(t, lab, root, Slot(va, 4));
    if Present(t[root][Slot(va, 4)]) {
      var dir := t[root][Slot(va, 4)].frame;
      assert EntryOk(t, lab, dir, Slot(va, 3));
      if Present(t[dir][Slot(va, 3)]) {
        var pd := t[dir][Slot(va, 3)].frame;
        assert EntryOk(t, lab, pd, Slot(va, 2));
      }
    }
  }

  /** The kernel's checks agree with the hardware: a user address passes them exactly when the
      processor would allow the access. */
  lemma MmuAgrees(space: Space, va: nat, write: bool)
    requires space.Valid() && va < USER_TOP
    ensures Reach(space.pages, va, write).Some? <==> MmuAllows(space.mmu.tables, space.root, va, write)
  {
    var t := space.mmu.tables;
    assert OpenAt(t, space.root, va) && ShowsPage(t, space.root, space.pages, Vpn(va));
    LookupByVpn(t, space.root, va);
    LeafDecides(t, space.mmu.labels, space.root, va, write);
  }

  // ----- what the copies promise -----

  /** Leading bytes that can be reached. */
  function Reachable(pages: map<nat, Pte>, va: nat, n: nat, write: bool): (k: nat)
    ensures k <= n && (k < n ==> Reach(pages, va + k, write).None?)
    ensures forall w: nat :: va <= w < va + k ==> Reach(pages, w, write).Some?
    decreases n
  {
    if n == 0 || Reach(pages, va, write).None? then 0 else 1 + Reachable(pages, va + 1, n - 1, write)
  }

  /** A write succeeds when every byte can be reached; otherwise exactly the bytes before the first
      unreachable one are written. */
  lemma {:induction false} WritesPrefix(pages: map<nat, Pte>, m: Mem, va: nat, bytes: seq<byte>)
    ensures
      var k := Reachable(pages, va, |bytes|, true);
      WriteAll(pages, m, va, bytes) == (WriteAll(pages, m, va, bytes[..k]).0, k == |bytes|)
    decreases |bytes|
  {
    if bytes != [] && Reach(pages, va, true).Some? {
      var k := Reachable(pages, va, |bytes|, true);
      WritesPrefix(pages, m[Reach(pages, va, true).value := bytes[0]], va + 1, bytes[1..]);
      assert bytes[..k][1..] == bytes[1..][..k - 1];
    }
  }

  /** A read gives exactly the bytes before the first that cannot be reached. */
  lemma {:induction false} ReadsPrefix(pages: map<nat, Pte>, m: Mem, va: nat, n: nat)
    ensures
      var k, out := Reachable(pages, va, n, false), ReadAll(pages, m, va, n);
      && |out.0| == k && (out.1 <==> k == n)
      && forall j :: 0 <= j < k ==> Reach(pages, va + j, false).Some? && out.0[j] == Get(m, Reach(pages, va + j, false).value)
    decreases n
  {
    if n > 0 && Reach(pages, va, false).Some? {
      var k, out := Reachable(pages, va, n, false), ReadAll(pages, m, va, n);
      var rest := ReadAll(pages, m, va + 1, n - 1);
      ReadsPrefix(pages, m, va + 1, n - 1);
      forall j | 0 <= j < k
        ensures Reach(pages, va + j, false).Some? && out.0[j] == Get(m, Reach(pages, va + j, false).value)
      {
        if j > 0 {
          assert out.0[j] == rest.0[j - 1] && va + j == va + 1 + (j - 1);
        }
      }
    }
  }

  /** No two pages of the range share a frame. */
  ghost predicate OwnFrames(pages: map<nat, Pte>, va: nat, n: nat) {
    forall u: nat, v: nat :: va <= u < va + n && va <= v < va + n ==> FramesApart(pages, u, v)
  }

  ghost predicate FramesApart(pages: map<nat, Pte>, u: nat, v: nat) {
    Vpn(u) in pages && Vpn(v) in pages && u / PAGE != v / PAGE ==> pages[Vpn(u)].frame != pages[Vpn(v)].frame
  }

  lemma OwnBytes(pages: map<nat, Pte>, u: nat, v: nat, write: bool)
    requires FramesApart(pages, u, v) && u != v && Reach(pages, u, write).Some? && Reach(pages, v, write).Some?
    ensures Reach(pages, u, write) != Reach(pages, v, write)
  {
    if u / PAGE == v / PAGE {
      assert u % PAGE != v % PAGE;
    }
  }

  lemma {:induction false} WriteElsewhere(pages: map<nat, Pte>, m: Mem, va: nat, bytes: seq<byte>, a: nat)
    requires forall w: nat :: va <= w < va + |bytes| ==> Reach(pages, w, true) != Some(a)
    ensures Get(WriteAll(pages, m, va, bytes).0, a) == Get(m, a)
    decreases |bytes|
  {
    if bytes != [] && Reach(pages, va, true).Some? {
      WriteElsewhere(pages, m[Reach(pages, va, true).value := bytes[0]], va + 1, bytes[1..], a);
    }
  }

  /** What was copied to the user is read back, when the pages have frames of their own. */
  lemma {:induction false} CopyRoundTrip(pages: map<nat, Pte>, m: Mem, va: nat, bytes: seq<byte>)
    requires OwnFrames(pages, va, |bytes|) && WriteAll(pages, m, va, bytes).1
    ensures ReadAll(pages, WriteAll(pages, m, va, bytes).0, va, |bytes|) == (bytes, true)
    decreases |bytes|
  {
    if bytes != [] {
      var a := Reach(pages, va, true).value;
      var m' := m[a := bytes[0]];
      WritesPrefix(pages, m, va, bytes);
      CopyRoundTrip(pages, m', va + 1, bytes[1..]);
      forall w: nat | va + 1 <= w < va + |bytes| ensures Reach(pages, w, true) != Some(a) {
        assert FramesApart(pages, va, w);
        OwnBytes(pages, va, w, true);
      }
      WriteElsewhere(pages, m', va + 1, bytes[1..], a);
      assert Reach(pages, va, false) == Some(a) && [bytes[0]] + bytes[1..] == bytes;
    }
  }
}
