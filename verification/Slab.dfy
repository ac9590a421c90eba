/** src/mm/heap.c over the page allocator: `kmalloc` and `kfree` as they update the caches and
    the byte memory in place. The direct map is the identity. */
module Slab {
  import opened Machine
  import opened Outcomes
  import opened ByteMemory
  import opened SlabModel
  import Pmm

  ghost predicate HalfSet(m: Mem, a: nat, v: nat, m': Mem) {
    m'.Keys == m.Keys && Half(m', a) == v && SameOutside(m, m', a, a + 4)
  }

  /** A header written as two fields. */
  lemma HeaderSet(m: Mem, m1: Mem, m2: Mem, p: nat, k: Chunk)
    requires p >= 8
    requires HalfSet(m, p - 8, if k.Small? then k.cls else CLASS_COUNT, m1)
    requires HalfSet(m1, p - 4, if k.Small? then 0 else k.pages % 0x1_0000_0000, m2)
    ensures HeaderOk(m2, p, k) && SameOutside(m, m2, p - 8, p)
  {
    HalfSame(m1, m2, p - 8);
    SameOutsideTrans(m, m1, m2, p - 8, p);
  }

  /** A header, then the link behind it. */
  lemma BlockSet(m: Mem, m2: Mem, m3: Mem, p: nat, k: Chunk, link: nat)
    requires HeaderOk(m2, p, k) && SameOutside(m, m2, p - 8, p) && WordSet(m2, p, link, m3)
    ensures HeaderOk(m3, p, k) && SameOutside(m, m3, p - 8, p + 8)
  {
    HalfSame(m2, m3, p - 8);
    HalfSame(m2, m3, p - 4);
    SameOutsideTrans(m, m2, m3, p - 8, p + 8);
  }

  /** Bytes of held pages are mapped. */
  lemma BlockMapped(m: Mem, p: nat, k: Chunk, taken: set<nat>, pageCount: nat)
    requires PlacedOk(p, k, taken) && Mapped(m, 0, pageCount * PAGE) && forall g :: g in taken ==> g < pageCount
    ensures Mapped(m, p - 8, Length(k)) && p - 8 + Length(k) <= pageCount * PAGE
  {
    assert InExtent(p, k, p - 8 + Length(k) - 1);
  }

  lemma HeadBound(h: SlabHeap, taken: set<nat>, view: View, c: nat, pageCount: nat)
    requires Sound(h, taken, view) && c < CLASS_COUNT && forall g :: g in taken ==> g < pageCount
    ensures HeadOf(h.free[c]) <= pageCount * PAGE
  {
    if h.free[c] != [] {
      var p := h.free[c][0];
      assert Node(h.mem, h.chunks, h.free[c], c, 0) && PlacedAt(h.chunks, taken, p);
      assert InExtent(p, h.chunks[p], p);
    }
  }

  lemma ClearLess(chunks: Chunks, p: nat, c: nat, hi: nat)
    requires p >= 8 && p - 8 + Length(Small(c)) <= hi && ClearOf(chunks, p - 8, hi)
    ensures ClearOf(chunks, p - 8, p - 8 + Length(Small(c)))
    ensures ClearOf(chunks[p := Small(c)], p - 8 + Length(Small(c)), hi)
  {
    var mid, chunks' := p - 8 + Length(Small(c)), chunks[p := Small(c)];
    forall q | q in chunks ensures Beyond(q, chunks[q], p - 8, mid) && Beyond(q, chunks[q], mid, hi) {
      assert Beyond(q, chunks[q], p - 8, hi);
    }
  }

  lemma CountOne(caches: seq<Cache>, chunks: Chunks, free: seq<seq<nat>>, c: nat, n: nat, p: nat)
    requires c < CLASS_COUNT && CountedBut(caches, chunks, free, c, n) && p !in chunks
    ensures CountedBut(caches[c := caches[c].(head := p)], chunks[p := Small(c)], free[c := [p] + free[c]], c, n + 1)
  {
    CarvedAdd(chunks, p, c);
    var caches', chunks', free' := caches[c := caches[c].(head := p)], chunks[p := Small(c)], free[c := [p] + free[c]];
    forall d | 0 <= d < CLASS_COUNT ensures CacheOk(caches'[d], chunks', free'[d], d, if d == c then n + 1 else 0) {
      assert CacheOk(caches[d], chunks, free[d], d, if d == c then n else 0);
    }
  }

  lemma CountAll(caches: seq<Cache>, chunks: Chunks, free: seq<seq<nat>>, c: nat, n: nat)
    requires c < CLASS_COUNT && CountedBut(caches, chunks, free, c, n)
    ensures Counted(caches[c := caches[c].(total := caches[c].total + n)], chunks, free)
  {
    var caches' := caches[c := caches[c].(total := caches[c].total + n)];
    forall d | 0 <= d < CLASS_COUNT ensures CacheOk(caches'[d], chunks, free[d], d, 0) {
      assert CacheOk(caches[d], chunks, free[d], d, if d == c then n else 0);
    }
  }

  /** `raw` is where block `i` of a page starts. */
  predicate BlockAt(phys: nat, c: nat, i: nat, raw: nat) {
    raw == phys + i * Length(Small(c))
  }

  lemma EighthSum(phys: nat, i: nat, b: nat)
    requires phys % PAGE == 0 && b % 8 == 0
    ensures Aligned(phys + i * b + 8)
  {
    var q := b / 8;
    assert i * b == 8 * (i * q);
    var g := phys / PAGE;
    assert phys == 8 * (g * 512);
  }

  /** Block `i` of a page lies on the page. */
  lemma OnPage(phys: nat, i: nat, c: nat, taken: set<nat>, raw: nat)
    requires phys % PAGE == 0 && phys / PAGE in taken && c < CLASS_COUNT && i < PAGE / Length(Small(c)) && BlockAt(phys, c, i, raw)
    ensures raw + Length(Small(c)) <= phys + PAGE && PlacedOk(raw + 8, Small(c), taken)
    ensures BlockAt(phys, c, i + 1, raw + Length(Small(c)))
  {
    var b, count := Length(Small(c)), PAGE / Length(Small(c));
    assert b % 8 == 0;
    EighthSum(phys, i, b);
    assert count * b <= PAGE;
    assert (i + 1) * b <= count * b by {
      assert (count - i - 1) * b >= 0;
    }
    forall a: nat | InExtent(raw + 8, Small(c), a) ensures a / PAGE in taken {
      PageOfByte(phys / PAGE, 1, a);
    }
  }

  /** No chunk moved or changed. */
  ghost predicate Extends(before: Chunks, after: Chunks) {
    forall p :: p in before ==> p in after && after[p] == before[p]
  }

  lemma PageMapped(m: Mem, g: nat, pageCount: nat)
    requires Mapped(m, 0, pageCount * PAGE) && g < pageCount
    ensures Mapped(m, g * PAGE, PAGE)
  {
    assert g * PAGE + PAGE <= pageCount * PAGE;
  }

  lemma PlacedMapped(h: SlabHeap, taken: set<nat>, view: View, p: nat, pageCount: nat)
    requires Sound(h, taken, view) && p in h.chunks && Mapped(h.mem, 0, pageCount * PAGE)
    requires forall g :: g in taken ==> g < pageCount
    ensures p >= 8 && Length(h.chunks[p]) >= 24 && p - 8 + Length(h.chunks[p]) <= pageCount * PAGE
    ensures Mapped(h.mem, p - 8, Length(h.chunks[p]))
  {
    assert PlacedAt(h.chunks, taken, p);
    BlockMapped(h.mem, p, h.chunks[p], taken, pageCount);
  }

  lemma NullHead(h: SlabHeap, taken: set<nat>, view: View, c: nat)
    requires Sound(h, taken, view) && c < CLASS_COUNT
    ensures HeadOf(h.free[c]) == 0 <==> h.free[c] == []
  {
    if h.free[c] != [] {
      assert Node(h.mem, h.chunks, h.free[c], c, 0) && PlacedAt(h.chunks, taken, h.free[c][0]);
    }
  }

  lemma CountPop(caches: seq<Cache>, chunks: Chunks, free: seq<seq<nat>>, c: nat, next: nat)
    requires c < CLASS_COUNT && Counted(caches, chunks, free) && free[c] != [] && next == HeadOf(free[c][1..])
    ensures Counted(caches[c := caches[c].(head := next, used := caches[c].used + 1)], chunks, free[c := free[c][1..]])
  {
    var caches', free' := caches[c := caches[c].(head := next, used := caches[c].used + 1)], free[c := free[c][1..]];
    forall d | 0 <= d < CLASS_COUNT ensures CacheOk(caches'[d], chunks, free'[d], d, 0) {
      assert CacheOk(caches[d], chunks, free[d], d, 0);
    }
  }

  lemma CountPush(caches: seq<Cache>, chunks: Chunks, free: seq<seq<nat>>, c: nat, p: nat)
    requires c < CLASS_COUNT && Counted(caches, chunks, free) && caches[c].used > 0
    ensures Counted(caches[c := caches[c].(head := p, used := caches[c].used - 1)], chunks, free[c := [p] + free[c]])
  {
    var caches', free' := caches[c := caches[c].(head := p, used := caches[c].used - 1)], free[c := [p] + free[c]];
    forall d | 0 <= d < CLASS_COUNT ensures CacheOk(caches'[d], chunks, free'[d], d, 0) {
      assert CacheOk(caches[d], chunks, free[d], d, 0);
    }
  }

  /** The client got `p`, new and with all the bytes of a chunk `k`; nothing else it holds changed. */
  ghost predicate Took(before: View, after: View, chunks: Chunks, p: nat, k: Chunk) {
    && p >= 8 && p !in before && p in after && |after[p]| == Length(k) - 8 && after == before[p := after[p]]
    && p in chunks && chunks[p] == k
  }

  /** One more block carved and linked, as a whole. */
  lemma CarveStep(h: SlabHeap, taken: set<nat>, view: View, caches: seq<Cache>, p: nat, c: nat, n: nat, hi: nat, m': Mem)
    requires Sound(h, taken, view) && c < CLASS_COUNT && CountedBut(caches, h.chunks, h.free, c, n)
    requires PlacedOk(p, Small(c), taken) && p - 8 + Length(Small(c)) <= hi && ClearOf(h.chunks, p - 8, hi)
    requires HeaderOk(m', p, Small(c)) && Word(m', p) == HeadOf(h.free[c]) && SameOutside(h.mem, m', p - 8, p + 8)
    ensures
      var chunks', free' := h.chunks[p := Small(c)], h.free[c := [p] + h.free[c]];
      && Sound(SlabHeap(m', chunks', free'), taken, view) && Extends(h.chunks, chunks')
      && CountedBut(caches[c := caches[c].(head := p)], chunks', free', c, n + 1)
      && ClearOf(chunks', p - 8 + Length(Small(c)), hi)
  {
    ClearLess(h.chunks, p, c, hi);
    Carve(h, taken, view, p, c, m');
    CountOne(caches, h.chunks, h.free, c, n, p);
  }

  lemma RunBelow(free: set<nat>, pageCount: nat, s: nat, n: nat)
    requires n > 0 && Pmm.Run(s, n) <= free && forall g :: g in free ==> g < pageCount
    ensures s + n <= pageCount
  {
    assert Pmm.InRun(s + n - 1, s, n) && s + n - 1 in Pmm.Run(s, n);
  }

  lemma LargeMapped(m: Mem, raw: nat, pages: nat, pageCount: nat)
    requires raw % PAGE == 0 && pages > 0 && raw / PAGE + pages <= pageCount && Mapped(m, 0, pageCount * PAGE)
    ensures Mapped(m, raw, 8)
  {
    assert raw + PAGE <= pageCount * PAGE;
  }

  lemma LargePlaced(raw: nat, pages: nat, taken: set<nat>)
    requires raw % PAGE == 0 && pages > 0 && Pmm.Run(raw / PAGE, pages) <= taken
    ensures PlacedOk(raw + 8, Large(pages), taken)
  {
    EighthSum(raw, 0, 0);
    forall a: nat | InExtent(raw + 8, Large(pages), a) ensures a / PAGE in taken {
      PageOfByte(raw / PAGE, pages, a);
      assert Pmm.InRun(a / PAGE, raw / PAGE, pages);
    }
  }

  /** A large block on fresh pages, as a whole. */
  lemma LargeStep(h: SlabHeap, taken: set<nat>, view: View, caches: seq<Cache>, raw: nat, pages: nat, m': Mem)
    requires Sound(h, taken, view) && Counted(caches, h.chunks, h.free)
    requires raw % PAGE == 0 && pages > 0 && Pmm.Run(raw / PAGE, pages) !! taken
    requires HeaderOk(m', raw + 8, Large(pages)) && SameOutside(h.mem, m', raw, raw + 8)
    ensures
      var p, taken' := raw + 8, taken + Pmm.Run(raw / PAGE, pages);
      && Sound(SlabHeap(m', h.chunks[p := Large(pages)], h.free), taken', view[p := Payload(m', p, Large(pages))])
      && Counted(caches, h.chunks[p := Large(pages)], h.free) && Extends(h.chunks, h.chunks[p := Large(pages)]) && p !in view
  {
    var p, run := raw + 8, Pmm.Run(raw / PAGE, pages);
    forall g: nat | raw / PAGE <= g < raw / PAGE + pages ensures g !in taken {
      assert Pmm.InRun(g, raw / PAGE, pages) && g in run;
    }
    ClearPages(h.chunks, taken, raw / PAGE, pages);
    MoreTaken(h, taken, taken + run, view);
    LargePlaced(raw, pages, taken + run);
    AddLarge(h, taken + run, view, p, pages, m');
    CarvedLarge(h.chunks, p, pages);
    forall c | 0 <= c < CLASS_COUNT ensures CacheOk(caches[c], h.chunks[p := Large(pages)], h.free[c], c, 0) {
      assert CacheOk(caches[c], h.chunks, h.free[c], c, 0);
    }
  }

  lemma NullNotLive(h: SlabHeap, taken: set<nat>, view: View)
    requires Sound(h, taken, view)
    ensures 0 !in view
  {
    assert Seen(h.mem, h.chunks, h.free, view, 0);
    forall p | p in h.chunks ensures p != 0 {
      assert PlacedAt(h.chunks, taken, p);
    }
  }

  lemma LiveChunk(h: SlabHeap, taken: set<nat>, view: View, p: nat)
    requires Sound(h, taken, view) && p in view
    ensures p in h.chunks && PlacedOk(p, h.chunks[p], taken) && HeaderOk(h.mem, p, h.chunks[p])
    ensures view[p] == Payload(h.mem, p, h.chunks[p])
  {
    assert Seen(h.mem, h.chunks, h.free, view, p);
    assert PlacedAt(h.chunks, taken, p) && HeaderAt(h.mem, h.chunks, p);
  }

  lemma {:induction false} ListSize(l: seq<nat>, s: set<nat>)
    requires (forall i :: 0 <= i < |l| ==> l[i] in s) && (forall i, j :: 0 <= i < j < |l| ==> l[i] != l[j])
    ensures |l| <= |s|
  {
    if l != [] {
      ListSize(l[1..], s - {l[0]});
    }
  }

  /** A live block is counted as used. */
  lemma UsedPositive(h: SlabHeap, taken: set<nat>, view: View, caches: seq<Cache>, p: nat, c: nat)
    requires Sound(h, taken, view) && Counted(caches, h.chunks, h.free)
    requires p in view && p in h.chunks && h.chunks[p] == Small(c) && c < CLASS_COUNT
    ensures caches[c].used > 0
  {
    assert Seen(h.mem, h.chunks, h.free, view, p) && CacheOk(caches[c], h.chunks, h.free[c], c, 0);
    var all := Carved(h.chunks, c);
    forall i | 0 <= i < |h.free[c]| ensures h.free[c][i] in all - {p} {
      assert Node(h.mem, h.chunks, h.free[c], c, i);
    }
    ListSize(h.free[c], all - {p});
  }

  /** A large block given back, as a whole. */
  lemma LargeBack(h: SlabHeap, taken: set<nat>, view: View, caches: seq<Cache>, p: nat, pages: nat)
    requires Sound(h, taken, view) && Counted(caches, h.chunks, h.free)
    requires p in view && p in h.chunks && h.chunks[p].Large? && p >= 8 && pages <= h.chunks[p].pages
    ensures (p - 8) % PAGE == 0 && Pmm.Run((p - 8) / PAGE, pages) <= taken
    ensures Sound(h.(chunks := h.chunks - {p}), taken - Pmm.Run((p - 8) / PAGE, pages), view - {p})
    ensures Counted(caches, h.chunks - {p}, h.free)
  {
    var n, run := h.chunks[p].pages, Pmm.Run((p - 8) / PAGE, pages);
    assert PlacedAt(h.chunks, taken, p);
    forall g, a: nat | g in run && a / PAGE == g ensures InExtent(p, h.chunks[p], a) {
      assert (g + 1) * PAGE <= ((p - 8) / PAGE + n) * PAGE;
    }
    forall g | g in run ensures g in taken {
      assert InExtent(p, h.chunks[p], g * PAGE);
    }
    DropLarge(h, taken, view, p, run);
    CarvedLarge(h.chunks, p, n);
    forall c | 0 <= c < CLASS_COUNT ensures CacheOk(caches[c], h.chunks - {p}, h.free[c], c, 0) {
      assert CacheOk(caches[c], h.chunks, h.free[c], c, 0);
    }
  }

  ghost function Members(l: seq<nat>): set<nat> {
    set x | x in l
  }

  lemma {:induction false} MembersSize(l: seq<nat>)
    requires forall i, j :: 0 <= i < j < |l| ==> l[i] != l[j]
    ensures |Members(l)| == |l|
  {
    if l == [] {
      assert Members(l) == {};
    } else {
      MembersSize(l[1..]);
      assert l == [l[0]] + l[1..];
      assert l[0] !in Members(l[1..]) && Members(l) == Members(l[1..]) + {l[0]};
    }
  }

  ghost function LiveOf(chunks: Chunks, view: View, c: nat): set<nat> {
    set p | p in view && p in chunks && chunks[p] == Small(c)
  }

  lemma ClassMember(h: SlabHeap, taken: set<nat>, view: View, c: nat, p: nat)
    requires Sound(h, taken, view) && c < CLASS_COUNT
    ensures p in Members(h.free[c]) ==> p in Carved(h.chunks, c) && p !in view
    ensures p in Carved(h.chunks, c) ==> p in view || p in Members(h.free[c])
  {
    assert Seen(h.mem, h.chunks, h.free, view, p);
    if p in h.free[c] {
      var i :| 0 <= i < |h.free[c]| && h.free[c][i] == p;
      assert Node(h.mem, h.chunks, h.free[c], c, i);
    }
  }

  lemma ClassSplit(h: SlabHeap, taken: set<nat>, view: View, c: nat)
    requires Sound(h, taken, view) && c < CLASS_COUNT
    ensures LiveOf(h.chunks, view, c) !! Members(h.free[c])
    ensures LiveOf(h.chunks, view, c) + Members(h.free[c]) == Carved(h.chunks, c)
  {
    var live, idle := LiveOf(h.chunks, view, c), Members(h.free[c]);
    forall p ensures (p in live + idle <==> p in Carved(h.chunks, c)) && (p in idle ==> p !in live) {
      ClassMember(h, taken, view, c, p);
    }
  }

  lemma UnionSize(a: set<nat>, b: set<nat>)
    requires a !! b
    ensures |a + b| == |a| + |b|
  {}

  /** In each class the free and the live blocks partition the carved ones, the free list holds
      total minus used of them and `used` is the number of live ones. */
  lemma ClassPartition(h: SlabHeap, taken: set<nat>, view: View, caches: seq<Cache>, c: nat)
    requires Sound(h, taken, view) && Counted(caches, h.chunks, h.free) && c < CLASS_COUNT
    ensures LiveOf(h.chunks, view, c) !! Members(h.free[c])
    ensures LiveOf(h.chunks, view, c) + Members(h.free[c]) == Carved(h.chunks, c)
    ensures |Members(h.free[c])| == caches[c].total - caches[c].used && |LiveOf(h.chunks, view, c)| == caches[c].used
  {
    ClassSplit(h, taken, view, c);
    assert CacheOk(caches[c], h.chunks, h.free[c], c, 0) && FreeList(h.mem, h.chunks, h.free[c], c);
    MembersSize(h.free[c]);
    UnionSize(LiveOf(h.chunks, view, c), Members(h.free[c]));
  }

  /** No two chunks, live or free, share a byte: a header lies between any two payloads. */
  lemma PayloadsApart(h: SlabHeap, taken: set<nat>, view: View, p: nat, q: nat)
    requires Sound(h, taken, view) && p in view && q in h.chunks && p != q
    ensures p + |view[p]| + 8 <= q || q + Length(h.chunks[q]) <= p
  {
    LiveChunk(h, taken, view, p);
    assert Separate(h.chunks, p, q);
  }

  lemma OneClass(size: nat, c: nat, d: nat)
    requires IsClassFor(size, c) && IsClassFor(size, d)
    ensures c == d
  {
    assert c < d ==> size > ObjSize(c);
    assert d < c ==> size > ObjSize(d);
  }

  lemma PopStep(h: SlabHeap, taken: set<nat>, view: View, caches: seq<Cache>, c: nat, pageCount: nat)
    requires Sound(h, taken, view) && Counted(caches, h.chunks, h.free) && c < CLASS_COUNT && h.free[c] != []
    requires Mapped(h.mem, 0, pageCount * PAGE) && forall g :: g in taken ==> g < pageCount
    ensures
      var p, l, view' := h.free[c][0], h.free[c][1..], view[h.free[c][0] := Payload(h.mem, h.free[c][0], Small(c))];
      var next := Word(h.mem, p);
      && Mapped(h.mem, p, 8) && Took(view, view', h.chunks, p, Small(c)) && Sound(h.(free := h.free[c := l]), taken, view')
      && Counted(caches[c := caches[c].(head := next, used := caches[c].used + 1)], h.chunks, h.free[c := l])
  {
    Pop(h, taken, view, c);
    PlacedMapped(h, taken, view, h.free[c][0], pageCount);
    CountPop(caches, h.chunks, h.free, c, Word(h.mem, h.free[c][0]));
  }

  /** List `c` has `n` more blocks in front, and no other list changed. */
  ghost predicate Stacked(before: seq<seq<nat>>, after: seq<seq<nat>>, c: nat, n: nat) {
    && |before| == |after| && c < |before| && |after[c]| == |before[c]| + n
    && after[c][n..] == before[c] && after == before[c := after[c]]
  }

  lemma StackedOne(before: seq<seq<nat>>, mid: seq<seq<nat>>, after: seq<seq<nat>>, c: nat, n: nat, p: nat)
    requires Stacked(before, mid, c, n) && after == mid[c := [p] + mid[c]]
    ensures Stacked(before, after, c, n + 1)
  {
    assert after[c][n + 1..] == mid[c][n..];
  }

  /** Where the carving loop stands: `i` blocks of the page at `phys` are carved, the next starts at `raw`. */
  ghost predicate Carving(h0: SlabHeap, h: SlabHeap, caches: seq<Cache>, taken: set<nat>, view: View, c: nat, phys: nat, i: nat, raw: nat) {
    && Sound(h, taken, view) && CountedBut(caches, h.chunks, h.free, c, i)
    && BlockAt(phys, c, i, raw) && ClearOf(h.chunks, raw, phys + PAGE)
    && Extends(h0.chunks, h.chunks) && Stacked(h0.free, h.free, c, i)
  }

  lemma CarvingNext(h0: SlabHeap, h: SlabHeap, caches: seq<Cache>, taken: set<nat>, view: View, c: nat, phys: nat, i: nat, raw: nat, m': Mem)
    requires c < CLASS_COUNT && Carving(h0, h, caches, taken, view, c, phys, i, raw)
    requires PlacedOk(raw + 8, Small(c), taken) && raw + Length(Small(c)) <= phys + PAGE && BlockAt(phys, c, i + 1, raw + Length(Small(c)))
    requires HeaderOk(m', raw + 8, Small(c)) && Word(m', raw + 8) == HeadOf(h.free[c]) && SameOutside(h.mem, m', raw, raw + 16)
    ensures
      var p := raw + 8;
      var h' := SlabHeap(m', h.chunks[p := Small(c)], h.free[c := [p] + h.free[c]]);
      Carving(h0, h', caches[c := caches[c].(head := p)], taken, view, c, phys, i + 1, raw + Length(Small(c)))
  {
    var p := raw + 8;
    CarveStep(h, taken, view, caches, p, c, i, phys + PAGE, m');
    ExtendsTrans(h0.chunks, h.chunks, h.chunks[p := Small(c)]);
    StackedOne(h0.free, h.free, h.free[c := [p] + h.free[c]], c, i, p);
  }

  lemma ExtendsTrans(a: Chunks, b: Chunks, c: Chunks)
    requires Extends(a, b) && Extends(b, c)
    ensures Extends(a, c)
  {}

  /** No run of that many pages is free; asking for none is refused too. */
  ghost predicate NoRun(free: set<nat>, pages: nat) {
    pages == 0 || forall s: nat :: !(Pmm.Run(s, pages) <= free)
  }

  /** Pages go from the free ones to the heap's. */
  lemma PagesMove(taken: set<nat>, free: set<nat>, run: set<nat>)
    requires run <= free && taken !! free
    ensures (taken + run) + (free - run) == taken + free && (taken + run) !! (free - run) && run !! taken
  {}

  /** Pages go back from the heap. The count of a large block is kept in 32 bits: freeing it gives
      back all of its pages exactly when the count fits. */
  lemma PagesBackIff(taken: set<nat>, free: set<nat>, b: nat, n: nat)
    requires Pmm.Run(b, n) <= taken && taken !! free
    ensures
      var run := Pmm.Run(b, n % 0x1_0000_0000);
      && run <= taken && (taken - run) + (free + run) == taken + free && (taken - run) !! (free + run)
      && (Pmm.Run(b, n) <= free + run <==> n < 0x1_0000_0000)
  {
    var back := n % 0x1_0000_0000;
    forall g | g in Pmm.Run(b, back) ensures g in Pmm.Run(b, n) {}
    if n >= 0x1_0000_0000 {
      assert b + back in Pmm.Run(b, n) && b + back !in Pmm.Run(b, back);
    }
  }

  /** An example of the failing family: a request for 2^44 - 8 bytes takes 2^32 pages, and freeing it
      gives none back. */
  lemma HugeBlockStays(b: nat)
    ensures Pages(0x1000_0000_0000 - 8) == 0x1_0000_0000 && Pmm.Run(b, 0x1_0000_0000 % 0x1_0000_0000) == {}
  {}

  class SlabAllocator {
    const pmm: Pmm.PageAllocator
    var mem: Mem
    var caches: seq<Cache>
    ghost var chunks: Chunks
    ghost var free: seq<seq<nat>>
    ghost var view: View
    ghost var taken: set<nat>

    ghost function State(): SlabHeap
      reads this
    {
      SlabHeap(mem, chunks, free)
    }

    /** The pages the heap holds are allocated ones. */
    ghost predicate Holds()
      reads this, pmm, pmm.bitmap
    {
      pmm.Valid() && InRange() && taken !! pmm.Free() && 0 !in taken
    }

    /** Physical addresses fit in 64 bits, and the heap has pages of the machine only. */
    ghost predicate InRange()
      reads this
    {
      && pmm.pageCount * PAGE < WORD_LIMIT
      && Mapped(mem, 0, pmm.pageCount * PAGE)
      && forall g :: g in taken ==> g < pmm.pageCount
    }

    ghost predicate Valid()
      reads this, pmm, pmm.bitmap
    {
      match State()
      case SlabHeap(_, _, _) => Holds() && Sound(State(), taken, view) && Counted(caches, chunks, free)
    }

    /** `slab_init`. */
    constructor (pmm: Pmm.PageAllocator, memory: Mem)
      requires pmm.Valid() && pmm.pageCount * PAGE < WORD_LIMIT
      requires Mapped(memory, 0, pmm.pageCount * PAGE)
      ensures Valid() && this.pmm == pmm && view == map[] && mem == memory && chunks == map[] && taken == {}
      ensures |free| == CLASS_COUNT && forall c :: 0 <= c < CLASS_COUNT ==> free[c] == [] && caches[c] == Cache(0, ObjSize(c), 0, 0)
    {
      this.pmm := pmm;
      mem := memory;
      caches := seq(CLASS_COUNT, c requires 0 <= c < CLASS_COUNT => Cache(0, ObjSize(c), 0, 0));
      chunks, view, taken := map[], map[], {};
      free := seq(CLASS_COUNT, c => []);
      new;
      forall c | 0 <= c < CLASS_COUNT ensures CacheOk(caches[c], chunks, free[c], c, 0) {
        assert Carved(chunks, c) == {};
      }
    }

    method WriteWord(a: nat, v: nat)
      requires Mapped(mem, a, 8) && v < WORD_LIMIT
      modifies this`mem
      ensures WordSet(old(mem), a, v, mem)
    {
      mem := SetWord(mem, a, v);
    }

    method WriteHalf(a: nat, v: nat)
      requires Mapped(mem, a, 4) && v < 0x1_0000_0000
      modifies this`mem
      ensures HalfSet(old(mem), a, v, mem)
    {
      assert Limit(4) == 0x1_0000_0000;
      LoadStore(mem, a, v, HalfBytes());
      mem := Store(mem, a, v, HalfBytes());
    }

    /** The `memset` of a fresh page. */
    method ZeroPage(a: nat)
      requires Mapped(mem, a, PAGE)
      modifies this`mem
      ensures mem.Keys == old(mem.Keys) && SameOutside(old(mem), mem, a, a + PAGE)
      ensures forall k: nat :: a <= k < a + PAGE ==> Get(mem, k) == 0
    {
      var i := 0;
      while i < PAGE
        invariant 0 <= i <= PAGE && mem.Keys == old(mem.Keys) && SameOutside(old(mem), mem, a, a + PAGE)
        invariant forall k: nat :: a <= k < a + i ==> Get(mem, k) == 0
      {
        ghost var before := mem;
        mem := SetByte(mem, a + i, 0);
        SameOutsideTrans(old(mem), before, mem, a, a + PAGE);
        forall k: nat | a <= k < a + i + 1 ensures Get(mem, k) == 0 {
          assert k < a + i ==> SameAt(before, mem, k);
        }
        i := i + 1;
      }
    }

    /** The header and the link of one carved block. */
    method WriteBlock(p: nat, c: nat, link: nat)
      requires p >= 8 && c < CLASS_COUNT && link < WORD_LIMIT && Mapped(mem, p - 8, 16)
      modifies this`mem
      ensures mem.Keys == old(mem.Keys) && HeaderOk(mem, p, Small(c)) && Word(mem, p) == link
      ensures SameOutside(old(mem), mem, p - 8, p + 8)
    {
      ghost var m := mem;
      WriteHalf(p - 8, c);
      ghost var m1 := mem;
      WriteHalf(p - 4, 0);
      HeaderSet(m, m1, mem, p, Small(c));
      ghost var m2 := mem;
      WriteWord(p, link);
      BlockSet(m, m2, mem, p, Small(c), link);
    }

    /** One step of the carving loop: the block at `raw` gets its header and joins the list. */
    method CarveOne(raw: nat, c: nat, ghost phys: nat, ghost i: nat, ghost h0: SlabHeap)
      requires InRange() && c < CLASS_COUNT && Carving(h0, State(), caches, taken, view, c, phys, i, raw)
      requires phys % PAGE == 0 && phys / PAGE in taken && i < PAGE / Length(Small(c))
      modifies this`mem, this`caches, this`chunks, this`free
      ensures mem.Keys == old(mem.Keys)
      ensures Carving(h0, State(), caches, taken, view, c, phys, i + 1, raw + Length(Small(c)))
    {
      ghost var h := State();
      var p := raw + 8;
      OnPage(phys, i, c, taken, raw);
      HeadBound(h, taken, view, c, pmm.pageCount);
      BlockMapped(mem, p, Small(c), taken, pmm.pageCount);
      assert CacheOk(caches[c], chunks, free[c], c, i);
      WriteBlock(p, c, caches[c].head);
      CarvingNext(h0, h, caches, taken, view, c, phys, i, raw, mem);
      caches := caches[c := caches[c].(head := p)];
      chunks := chunks[p := Small(c)];
      free := free[c := [p] + free[c]];
    }

    /** The carving loop of `slab_refill` over a page that holds no chunk yet. */
    method CarvePage(phys: nat, c: nat)
      requires InRange() && Sound(State(), taken, view) && Counted(caches, chunks, free) && c < CLASS_COUNT
      requires phys % PAGE == 0 && phys / PAGE in taken && ClearOf(chunks, phys, phys + PAGE)
      modifies this`mem, this`caches, this`chunks, this`free
      ensures mem.Keys == old(mem.Keys) && Sound(State(), taken, view) && Counted(caches, chunks, free)
      ensures Extends(old(chunks), chunks) && Stacked(old(free), free, c, PAGE / Length(Small(c)))
    {
      assert CacheOk(caches[c], chunks, free[c], c, 0);
      var block := caches[c].objSize + 8;
      var count := PAGE / block;
      CarveBlocks(phys, c, block, count);
      CountAll(caches, chunks, free, c, count);
      caches := caches[c := caches[c].(total := caches[c].total + count)];
    }

    method CarveBlocks(phys: nat, c: nat, block: nat, count: nat)
      requires InRange() && Sound(State(), taken, view) && Counted(caches, chunks, free) && c < CLASS_COUNT
      requires phys % PAGE == 0 && phys / PAGE in taken && ClearOf(chunks, phys, phys + PAGE)
      requires block == Length(Small(c)) && count == PAGE / block
      modifies this`mem, this`caches, this`chunks, this`free
      ensures mem.Keys == old(mem.Keys) && Sound(State(), taken, view) && CountedBut(caches, chunks, free, c, count)
      ensures Extends(old(chunks), chunks) && Stacked(old(free), free, c, count)
    {
      var i: nat, raw: nat := 0, phys;
      ghost var h := State();
      while i < count
        invariant i <= count && mem.Keys == old(mem.Keys) && Carving(h, State(), caches, taken, view, c, phys, i, raw)
      {
        CarveOne(raw, c, phys, i, h);
        raw := raw + block;
        i := i + 1;
      }
    }

    /** A fresh page becomes the heap's, all zero. */
    method AdoptPage(phys: nat)
      requires InRange() && Sound(State(), taken, view)
      requires phys % PAGE == 0 && phys / PAGE < pmm.pageCount && phys / PAGE !in taken
      modifies this`mem, this`taken
      ensures mem.Keys == old(mem.Keys) && taken == old(taken) + {phys / PAGE}
      ensures Sound(State(), taken, view) && ClearOf(chunks, phys, phys + PAGE)
    {
      ghost var g, h := phys / PAGE, State();
      ClearPages(chunks, taken, g, 1);
      MoreTaken(h, taken, taken + {g}, view);
      taken := taken + {g};
      PageMapped(mem, g, pmm.pageCount);
      ZeroPage(phys);
      Scrub(h, taken, view, mem, phys, phys + PAGE);
    }

    /** `slab_refill`. Address 0 is read as out of memory. */
    method Refill(c: nat) returns (r: Outcome<()>)
      requires Valid() && c < CLASS_COUNT
      modifies this, pmm, pmm.bitmap
      ensures r.Panic? ==> old(pmm.Free()) == {} || 0 in old(pmm.Free())
      ensures old(pmm.Free()) == {} ==> r.Panic?
      ensures r.Done? ==> Valid() && view == old(view) && Extends(old(chunks), chunks)
      ensures r.Done? ==> Stacked(old(free), free, c, PAGE / Length(Small(c)))
      ensures r.Done? ==> taken + pmm.Free() == old(taken + pmm.Free())
    {
      ghost var t, f := taken, pmm.Free();
      var page := pmm.AllocPage();
      if page.Panic? || page.value == 0 {
        return Panic;
      }
      PagesMove(t, f, {page.value / PAGE});
      AdoptPage(page.value);
      CarvePage(page.value, c);
      r := Done(());
    }

    /** `kmalloc` from a size class. */
    method TakeSmall(c: nat) returns (r: Outcome<nat>)
      requires Valid() && c < CLASS_COUNT
      modifies this, pmm, pmm.bitmap
      ensures r.Panic? ==> old(free)[c] == [] && (old(pmm.Free()) == {} || 0 in old(pmm.Free()))
      ensures old(free)[c] == [] && old(pmm.Free()) == {} ==> r.Panic?
      ensures r.Done? ==> Valid() && Took(old(view), view, chunks, r.value, Small(c)) && Extends(old(chunks), chunks)
      ensures r.Done? && old(free)[c] != [] ==>
        pmm.Free() == old(pmm.Free()) && r.value == old(free)[c][0] && free == old(free)[c := old(free)[c][1..]]
      ensures r.Done? ==> taken + pmm.Free() == old(taken + pmm.Free())
    {
      assert CacheOk(caches[c], chunks, free[c], c, 0);
      NullHead(State(), taken, view, c);
      if caches[c].head == 0 {
        var done := Refill(c);
        if done.Panic? {
          return Panic;
        }
      }
      var block := PopHead(c);
      r := Done(block);
    }

    method PopHead(c: nat) returns (p: nat)
      requires InRange() && Sound(State(), taken, view) && Counted(caches, chunks, free) && c < CLASS_COUNT && free[c] != []
      modifies this`caches, this`free, this`view
      ensures Sound(State(), taken, view) && Counted(caches, chunks, free) && Took(old(view), view, chunks, p, Small(c))
      ensures p == old(free)[c][0] && free == old(free)[c := old(free)[c][1..]]
    {
      assert CacheOk(caches[c], chunks, free[c], c, 0);
      p := caches[c].head;
      PopStep(State(), taken, view, caches, c, pmm.pageCount);
      var next := ReadWord(p);
      caches := caches[c := caches[c].(head := next, used := caches[c].used + 1)];
      view := view[p := Payload(mem, p, Small(c))];
      free := free[c := free[c][1..]];
    }

    method ReadWord(a: nat) returns (v: nat)
      requires Mapped(mem, a, 8)
      ensures v == Word(mem, a)
    {
      v := Word(mem, a);
    }

    /** `kmalloc` past the largest class: whole pages. */
    method TakePages(pages: nat) returns (r: Outcome<nat>)
      requires Valid()
      modifies this, pmm, pmm.bitmap
      ensures r.Panic? ==> NoRun(old(pmm.Free()), pages) || 0 in old(pmm.Free())
      ensures NoRun(old(pmm.Free()), pages) ==> r.Panic?
      ensures r.Done? ==> Valid() && Took(old(view), view, chunks, r.value, Large(pages)) && Extends(old(chunks), chunks)
      ensures r.Done? ==> pmm.Free() == old(pmm.Free()) - Pmm.Run((r.value - 8) / PAGE, pages)
      ensures r.Done? ==> taken + pmm.Free() == old(taken + pmm.Free())
    {
      var phys := AllocRun(pages);
      if phys.Panic? {
        return Panic;
      }
      LabelLarge(phys.value, pages);
      r := Done(phys.value + 8);
    }

    /** Pages from the page allocator, where address 0 means none. */
    method AllocRun(pages: nat) returns (r: Outcome<nat>)
      requires pmm.Valid() && taken !! pmm.Free()
      modifies pmm, pmm.bitmap
      ensures r.Panic? ==> NoRun(old(pmm.Free()), pages) || 0 in old(pmm.Free())
      ensures NoRun(old(pmm.Free()), pages) ==> r.Panic?
      ensures r.Done? ==>
        var run := Pmm.Run(r.value / PAGE, pages);
        && r.value != 0 && r.value % PAGE == 0 && pages > 0 && r.value / PAGE + pages <= pmm.pageCount && pmm.Valid()
        && run !! taken && 0 !in run && pmm.Free() == old(pmm.Free()) - run
        && taken + run !! pmm.Free() && taken + run + pmm.Free() == old(taken + pmm.Free())
    {
      ghost var f := pmm.Free();
      r := pmm.AllocPages(pages);
      if r.Panic? || r.value == 0 {
        return Panic;
      }
      PagesMove(taken, f, Pmm.Run(r.value / PAGE, pages));
      RunBelow(f, pmm.pageCount, r.value / PAGE, pages);
    }

    /** The header of a large block on pages the heap just got. */
    method LabelLarge(raw: nat, pages: nat)
      requires InRange() && Sound(State(), taken, view) && Counted(caches, chunks, free)
      requires raw % PAGE == 0 && pages > 0 && Pmm.Run(raw / PAGE, pages) !! taken && raw / PAGE + pages <= pmm.pageCount
      modifies this`mem, this`chunks, this`view, this`taken
      ensures mem.Keys == old(mem.Keys) && taken == old(taken) + Pmm.Run(raw / PAGE, pages)
      ensures Sound(State(), taken, view) && Counted(caches, chunks, free)
      ensures Took(old(view), view, chunks, raw + 8, Large(pages)) && Extends(old(chunks), chunks)
    {
      ghost var m := mem;
      LargeMapped(mem, raw, pages, pmm.pageCount);
      WriteHalf(raw, CLASS_COUNT);
      ghost var m1 := mem;
      WriteHalf(raw + 4, pages % 0x1_0000_0000);
      HeaderSet(m, m1, mem, raw + 8, Large(pages));
      LargeStep(SlabHeap(m, chunks, free), taken, view, caches, raw, pages, mem);
      chunks := chunks[raw + 8 := Large(pages)];
      taken := taken + Pmm.Run(raw / PAGE, pages);
      view := view[raw + 8 := Payload(mem, raw + 8, Large(pages))];
    }

    /** `kmalloc`. */
    method Kmalloc(size: nat) returns (r: Outcome<nat>)
      requires Valid() && size < WORD_LIMIT
      modifies this, pmm, pmm.bitmap
      ensures size == 0 ==> r == Done(0) && view == old(view) && Valid()
      ensures size > 0 && r.Panic? ==>
        || 0 in old(pmm.Free())
        || (if ClassFor(size) < CLASS_COUNT then old(free)[ClassFor(size)] == [] && old(pmm.Free()) == {}
            else NoRun(old(pmm.Free()), Pages(size)))
      ensures size > 0 && r.Done? ==> Valid() && Took(old(view), view, chunks, r.value, KindFor(size)) && Extends(old(chunks), chunks)
      ensures size > 0 && r.Done? && ClassFor(size) == CLASS_COUNT ==>
        pmm.Free() == old(pmm.Free()) - Pmm.Run((r.value - 8) / PAGE, Pages(size))
      ensures r.Done? ==> taken + pmm.Free() == old(taken + pmm.Free()) && Aligned(r.value)
    {
      if size == 0 {
        return Done(0);
      }
      var i := FindClass(size);
      if i < CLASS_COUNT {
        r := TakeSmall(i);
      } else {
        var total := (size + 8) % WORD_LIMIT;
        var pages := (total + PAGE - 1) % WORD_LIMIT / PAGE;
        r := TakePages(pages);
      }
      if r.Done? {
        LiveChunk(State(), taken, view, r.value);
      }
    }

    /** The search of `kmalloc` for a class. */
    method FindClass(size: nat) returns (i: nat)
      requires Counted(caches, chunks, free)
      ensures i == ClassFor(size)
    {
      i := 0;
      while i < CLASS_COUNT && size > caches[i].objSize
        invariant i <= CLASS_COUNT && forall j :: 0 <= j < i ==> size > ObjSize(j)
      {
        assert CacheOk(caches[i], chunks, free[i], i, 0);
        i := i + 1;
      }
      assert i < CLASS_COUNT ==> CacheOk(caches[i], chunks, free[i], i, 0);
      OneClass(size, i, ClassFor(size));
    }

    /** `kfree`: never panics on a pointer the client holds. */
    method Kfree(ptr: nat) returns (r: Outcome<()>)
      requires Valid() && (ptr == 0 || ptr in view)
      modifies this, pmm, pmm.bitmap
      ensures r.Done? && Valid() && view == old(view) - {ptr}
      ensures ptr != 0 ==> ptr in old(chunks)
      ensures ptr == 0 || old(chunks)[ptr].Small? ==> chunks == old(chunks) && pmm.Free() == old(pmm.Free())
      ensures ptr != 0 && old(chunks)[ptr].Small? ==>
        var c := old(chunks)[ptr].cls;
        c < CLASS_COUNT && |old(free)| == CLASS_COUNT && free == old(free)[c := [ptr] + old(free)[c]]
      ensures ptr != 0 && old(chunks)[ptr].Large? ==>
        && chunks == old(chunks) - {ptr} && ptr >= 8
        && pmm.Free() == old(pmm.Free()) + Pmm.Run((ptr - 8) / PAGE, old(chunks)[ptr].pages % 0x1_0000_0000)
        && (Pmm.Run((ptr - 8) / PAGE, old(chunks)[ptr].pages) <= pmm.Free() <==> old(chunks)[ptr].pages < 0x1_0000_0000)
      ensures taken + pmm.Free() == old(taken + pmm.Free())
    {
      if ptr == 0 {
        assert 0 !in view by { NullNotLive(State(), taken, view); }
        return Done(());
      }
      LiveChunk(State(), taken, view, ptr);
      PlacedMapped(State(), taken, view, ptr, pmm.pageCount);
      var index := ReadHalf(ptr - 8);
      if index == CLASS_COUNT {
        var pages := ReadHalf(ptr - 4);
        r := GiveBack(ptr, pages);
        return;
      }
      if index >= CLASS_COUNT {
        return Panic;
      }
      PushBlock(ptr, index);
      r := Done(());
    }

    method ReadHalf(a: nat) returns (v: nat)
      requires Mapped(mem, a, 4)
      ensures v == Half(mem, a)
    {
      v := Half(mem, a);
    }

    method PushBlock(ptr: nat, c: nat)
      requires Valid() && ptr in view && ptr in chunks && chunks[ptr] == Small(c) && c < CLASS_COUNT
      modifies this`mem, this`caches, this`free, this`view
      ensures Valid() && view == old(view) - {ptr} && free == old(free)[c := [ptr] + old(free)[c]]
    {
      ghost var h := State();
      PlacedMapped(h, taken, view, ptr, pmm.pageCount);
      HeadBound(h, taken, view, c, pmm.pageCount);
      assert CacheOk(caches[c], chunks, free[c], c, 0);
      WriteWord(ptr, caches[c].head);
      UsedPositive(h, taken, view, caches, ptr, c);
      Push(h, taken, view, ptr, mem);
      CountPush(caches, chunks, free, c, ptr);
      caches := caches[c := caches[c].(head := ptr, used := caches[c].used - 1)];
      free := free[c := [ptr] + free[c]];
      view := view - {ptr};
    }

    method GiveBack(ptr: nat, pages: nat) returns (r: Outcome<()>)
      requires Valid() && ptr in view && ptr in chunks && chunks[ptr].Large? && ptr >= 8 && pages == chunks[ptr].pages % 0x1_0000_0000
      modifies this`chunks, this`view, this`taken, pmm, pmm.bitmap
      ensures r.Done? && Valid() && view == old(view) - {ptr} && chunks == old(chunks) - {ptr}
      ensures pmm.Free() == old(pmm.Free()) + Pmm.Run((ptr - 8) / PAGE, pages)
      ensures Pmm.Run((ptr - 8) / PAGE, old(chunks)[ptr].pages) <= pmm.Free() <==> old(chunks)[ptr].pages < 0x1_0000_0000
      ensures taken + pmm.Free() == old(taken + pmm.Free())
    {
      ghost var h, t, f, run := State(), taken, pmm.Free(), Pmm.Run((ptr - 8) / PAGE, pages);
      LargeBack(h, taken, view, caches, ptr, chunks[ptr].pages);
      LargeBack(h, taken, view, caches, ptr, pages);
      PagesBackIff(taken, f, (ptr - 8) / PAGE, chunks[ptr].pages);
      assert Pmm.Releasable(f, pmm.pageCount, ptr - 8, pages);
      r := pmm.FreePages(ptr - 8, pages);
      chunks := chunks - {ptr};
      view := view - {ptr};
      taken := taken - run;
    }

    /** The client uses its block. */
    method Poke(p: nat, k: nat, v: byte)
      requires Valid() && p in view && k < |view[p]|
      modifies this`mem, this`view
      ensures Valid() && p in view && |view[p]| == |old(view)[p]| && view == old(view)[p := view[p]]
      ensures forall j :: 0 <= j < |view[p]| ==> view[p][j] == if j == k then v else old(view)[p][j]
    {
      ghost var h := State();
      LiveChunk(h, taken, view, p);
      PlacedMapped(h, taken, view, p, pmm.pageCount);
      mem := SetByte(mem, p + k, v);
      Poked(h, taken, view, p, mem, k);
      view := view[p := Payload(mem, p, chunks[p])];
      forall j | 0 <= j < |view[p]| && j != k ensures view[p][j] == old(view)[p][j] {
        assert SameAt(h.mem, mem, p + j);
      }
    }
  }
}
