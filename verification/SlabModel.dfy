/** The kernel slab heap of src/mm/heap.c as a value: carved blocks and large blocks with their
    8-byte headers, and one free list per size class, all in the same byte memory. */
module SlabModel {
  import opened Machine
  import opened ByteMemory

  const CLASS_COUNT: nat := 8

  /** The object sizes 16, 32, .. 2048. */
  function ObjSize(c: nat): (n: nat)
    ensures 16 <= n <= 2048
  {
    if c == 0 then 16 else if c == 1 then 32 else if c == 2 then 64 else if c == 3 then 128
    else if c == 4 then 256 else if c == 5 then 512 else if c == 6 then 1024 else 2048
  }

  datatype Chunk = Small(cls: nat) | Large(pages: nat)

  type Chunks = map<nat, Chunk>
  type View = map<nat, seq<byte>>

  /** Bytes of a chunk with its header; the client has the rest. */
  function Length(k: Chunk): nat {
    match k
    case Small(c) => ObjSize(c) + 8
    case Large(n) => n * PAGE
  }

  predicate KindOk(k: Chunk) {
    match k
    case Small(c) => c < CLASS_COUNT
    case Large(n) => n > 0
  }

  /** A 32-bit field. */
  function HalfBytes(): nat { 4 }

  function Half(m: Mem, a: nat): nat {
    Load(m, a, HalfBytes())
  }

  lemma HalfSame(m: Mem, m': Mem, a: nat)
    requires forall k: nat :: a <= k < a + 4 ==> SameAt(m, m', k)
    ensures Half(m', a) == Half(m, a)
  {
    LoadSame(m, m', a, HalfBytes());
  }

  /** The header in front of `p`: class index, then the page count of a large block cut to 32 bits. */
  predicate HeaderOk(m: Mem, p: nat, k: Chunk) {
    && p >= 8
    && Half(m, p - 8) == (if k.Small? then k.cls else CLASS_COUNT)
    && Half(m, p - 4) == (if k.Small? then 0 else k.pages % 0x1_0000_0000)
  }

  // ----- where chunks lie; `p` is the client's pointer, the header is the 8 bytes before it -----

  predicate InExtent(p: nat, k: Chunk, a: nat) {
    p <= a + 8 < p + Length(k)
  }

  ghost predicate InPages(p: nat, k: Chunk, taken: set<nat>) {
    forall a: nat :: InExtent(p, k, a) ==> a / PAGE in taken
  }

  predicate Aligned(p: nat) {
    p % 8 == 0
  }

  ghost predicate PlacedOk(p: nat, k: Chunk, taken: set<nat>) {
    p >= 8 && Aligned(p) && KindOk(k) && InPages(p, k, taken) && (k.Large? ==> (p - 8) % PAGE == 0)
  }

  /** The chunk has no byte in `lo .. hi`. */
  predicate Beyond(p: nat, k: Chunk, lo: nat, hi: nat) {
    p + Length(k) <= lo + 8 || hi + 8 <= p
  }

  ghost predicate ClearOf(chunks: Chunks, lo: nat, hi: nat) {
    forall p :: p in chunks ==> Beyond(p, chunks[p], lo, hi)
  }

  ghost predicate Separate(chunks: Chunks, p: nat, q: nat) {
    p in chunks && q in chunks && p != q ==> p + Length(chunks[p]) <= q || q + Length(chunks[q]) <= p
  }

  ghost predicate PlacedAt(chunks: Chunks, taken: set<nat>, p: nat) {
    p in chunks ==> PlacedOk(p, chunks[p], taken)
  }

  ghost predicate Laid(chunks: Chunks, taken: set<nat>) {
    && (forall p: nat :: PlacedAt(chunks, taken, p))
    && (forall p, q :: Separate(chunks, p, q))
  }

  ghost predicate HeaderAt(m: Mem, chunks: Chunks, p: nat) {
    p in chunks ==> HeaderOk(m, p, chunks[p])
  }

  ghost predicate Headed(m: Mem, chunks: Chunks) {
    forall p: nat :: HeaderAt(m, chunks, p)
  }

  // ----- free lists -----

  function NextOf(l: seq<nat>, i: nat): nat {
    if i + 1 < |l| then l[i + 1] else 0
  }

  function HeadOf(l: seq<nat>): nat {
    if l == [] then 0 else l[0]
  }

  ghost predicate Node(m: Mem, chunks: Chunks, l: seq<nat>, c: nat, i: nat)
    requires i < |l|
  {
    l[i] in chunks && chunks[l[i]] == Small(c) && Word(m, l[i]) == NextOf(l, i)
  }

  /** The links in memory run through the list and end: no cycle. */
  ghost predicate FreeList(m: Mem, chunks: Chunks, l: seq<nat>, c: nat) {
    && (forall i :: 0 <= i < |l| ==> Node(m, chunks, l, c, i))
    && (forall i, j :: 0 <= i < j < |l| ==> l[i] != l[j])
  }

  ghost predicate Lists(m: Mem, chunks: Chunks, free: seq<seq<nat>>) {
    |free| == CLASS_COUNT && forall c :: 0 <= c < CLASS_COUNT ==> FreeList(m, chunks, free[c], c)
  }

  // ----- the client's side -----

  predicate Live(chunks: Chunks, free: seq<seq<nat>>, p: nat) {
    p in chunks && (chunks[p].Small? && chunks[p].cls < |free| ==> p !in free[chunks[p].cls])
  }

  function Payload(m: Mem, p: nat, k: Chunk): seq<byte> {
    Bytes(m, p, if Length(k) >= 8 then Length(k) - 8 else 0)
  }

  ghost predicate Seen(m: Mem, chunks: Chunks, free: seq<seq<nat>>, view: View, p: nat) {
    && (p in view <==> Live(chunks, free, p))
    && (p in view ==> view[p] == Payload(m, p, chunks[p]))
  }

  lemma LivePush(chunks: Chunks, free: seq<seq<nat>>, c: nat, p: nat, q: nat)
    requires c < |free| && p in chunks && chunks[p] == Small(c)
    ensures Live(chunks, free[c := [p] + free[c]], q) <==> Live(chunks, free, q) && q != p
  {
    assert q in [p] + free[c] <==> q == p || q in free[c];
  }

  lemma LivePop(chunks: Chunks, free: seq<seq<nat>>, c: nat, q: nat)
    requires c < |free| && free[c] != [] && free[c][0] in chunks && chunks[free[c][0]] == Small(c)
    requires free[c][0] !in free[c][1..]
    ensures Live(chunks, free[c := free[c][1..]], q) <==> Live(chunks, free, q) || q == free[c][0]
  {
    assert free[c] == [free[c][0]] + free[c][1..];
    assert q in free[c] <==> q == free[c][0] || q in free[c][1..];
  }

  datatype SlabHeap = SlabHeap(mem: Mem, chunks: Chunks, free: seq<seq<nat>>)

  ghost predicate Sound(h: SlabHeap, taken: set<nat>, view: View) {
    match h
    case SlabHeap(mem, chunks, free) =>
      && Laid(chunks, taken)
      && Headed(mem, chunks)
      && Lists(mem, chunks, free)
      && forall p :: Seen(mem, chunks, free, view, p)
  }

  // ----- what a write leaves alone -----

  ghost predicate Untouched(m: Mem, m': Mem, p: nat, k: Chunk) {
    forall a: nat :: InExtent(p, k, a) ==> SameAt(m, m', a)
  }

  lemma Kept(m: Mem, m': Mem, p: nat, k: Chunk)
    requires p >= 8 && KindOk(k) && Untouched(m, m', p, k)
    ensures HeaderOk(m, p, k) ==> HeaderOk(m', p, k)
    ensures Word(m', p) == Word(m, p)
    ensures Payload(m', p, k) == Payload(m, p, k)
  {
    assert Length(k) >= 24;
    forall a: nat | p <= a + 8 < p + Length(k) ensures SameAt(m, m', a) {
      assert InExtent(p, k, a);
    }
    HalfSame(m, m', p - 8);
    HalfSame(m, m', p - 4);
    WordSame(m, m', p);
    BytesSame(m, m', p, Length(k) - 8);
  }

  lemma UntouchedBeyond(m: Mem, m': Mem, p: nat, k: Chunk, lo: nat, hi: nat)
    requires SameOutside(m, m', lo, hi) && Beyond(p, k, lo, hi)
    ensures Untouched(m, m', p, k)
  {}

  /** A write where no chunk is. */
  lemma Scrub(h: SlabHeap, taken: set<nat>, view: View, m': Mem, lo: nat, hi: nat)
    requires Sound(h, taken, view) && ClearOf(h.chunks, lo, hi) && SameOutside(h.mem, m', lo, hi)
    ensures Sound(h.(mem := m'), taken, view)
  {
    forall p | p in h.chunks
      ensures HeaderOk(m', p, h.chunks[p]) && Word(m', p) == Word(h.mem, p)
      ensures Payload(m', p, h.chunks[p]) == Payload(h.mem, p, h.chunks[p])
    {
      assert PlacedAt(h.chunks, taken, p) && HeaderAt(h.mem, h.chunks, p);
      UntouchedBeyond(h.mem, m', p, h.chunks[p], lo, hi);
      Kept(h.mem, m', p, h.chunks[p]);
    }
    forall c | 0 <= c < CLASS_COUNT ensures FreeList(m', h.chunks, h.free[c], c) {
      forall i | 0 <= i < |h.free[c]| ensures Node(m', h.chunks, h.free[c], c, i) {
        assert Node(h.mem, h.chunks, h.free[c], c, i);
      }
    }
    forall p ensures Seen(m', h.chunks, h.free, view, p) {
      assert Seen(h.mem, h.chunks, h.free, view, p);
    }
  }

  // ----- the operations -----

  /** `kmalloc` takes the head of a free list. */
  lemma Pop(h: SlabHeap, taken: set<nat>, view: View, c: nat)
    requires Sound(h, taken, view) && c < CLASS_COUNT && h.free[c] != []
    ensures
      var p, l := h.free[c][0], h.free[c][1..];
      && p != 0 && p !in view && Word(h.mem, p) == HeadOf(l) && p in h.chunks && h.chunks[p] == Small(c)
      && Sound(h.(free := h.free[c := l]), taken, view[p := Payload(h.mem, p, Small(c))])
  {
    var p, l, free' := h.free[c][0], h.free[c][1..], h.free[c := h.free[c][1..]];
    assert Node(h.mem, h.chunks, h.free[c], c, 0) && Seen(h.mem, h.chunks, h.free, view, p) && PlacedAt(h.chunks, taken, p);
    assert h.free[c] == [p] + l;
    assert FreeList(h.mem, h.chunks, l, c) by {
      forall i | 0 <= i < |l| ensures Node(h.mem, h.chunks, l, c, i) {
        assert Node(h.mem, h.chunks, h.free[c], c, i + 1);
      }
    }
    assert p !in l;
    var view' := view[p := Payload(h.mem, p, Small(c))];
    forall q ensures Seen(h.mem, h.chunks, free', view', q) {
      assert Seen(h.mem, h.chunks, h.free, view, q);
      LivePop(h.chunks, h.free, c, q);
    }
  }

  /** A write inside the payload of `p` keeps every header and all that other pointers see. */
  lemma Written(h: SlabHeap, taken: set<nat>, view: View, p: nat, m': Mem, lo: nat, hi: nat)
    requires Sound(h, taken, view) && p in view && p in h.chunks
    requires SameOutside(h.mem, m', lo, hi) && p <= lo <= hi <= p + Length(h.chunks[p]) - 8
    ensures Headed(m', h.chunks) && Lists(m', h.chunks, h.free)
    ensures forall q :: q in view && q != p ==> Seen(m', h.chunks, h.free, view, q)
  {
    assert Seen(h.mem, h.chunks, h.free, view, p);
    forall q | q in h.chunks && q != p ensures Untouched(h.mem, m', q, h.chunks[q]) {
      assert Separate(h.chunks, p, q);
    }
    forall q | q in h.chunks
      ensures HeaderOk(m', q, h.chunks[q])
      ensures q != p ==> Word(m', q) == Word(h.mem, q) && Payload(m', q, h.chunks[q]) == Payload(h.mem, q, h.chunks[q])
    {
      assert PlacedAt(h.chunks, taken, q) && HeaderAt(h.mem, h.chunks, q);
      if q != p {
        Kept(h.mem, m', q, h.chunks[q]);
      } else {
        HalfSame(h.mem, m', p - 8);
        HalfSame(h.mem, m', p - 4);
      }
    }
    forall c | 0 <= c < CLASS_COUNT ensures FreeList(m', h.chunks, h.free[c], c) {
      forall i | 0 <= i < |h.free[c]| ensures Node(m', h.chunks, h.free[c], c, i) {
        assert Node(h.mem, h.chunks, h.free[c], c, i);
        assert h.free[c][i] != p;
      }
    }
    forall q | q in view && q != p ensures Seen(m', h.chunks, h.free, view, q) {
      assert Seen(h.mem, h.chunks, h.free, view, q);
    }
  }

  lemma Longer(m: Mem, chunks: Chunks, l: seq<nat>, c: nat, p: nat)
    requires FreeList(m, chunks, l, c) && p in chunks && chunks[p] == Small(c) && p !in l && Word(m, p) == HeadOf(l)
    ensures FreeList(m, chunks, [p] + l, c)
  {
    forall i | 0 <= i < |l| + 1 ensures Node(m, chunks, [p] + l, c, i) {
      assert i > 0 ==> Node(m, chunks, l, c, i - 1);
    }
  }

  /** `kfree` puts a block back at the head of its own class's list. */
  lemma Push(h: SlabHeap, taken: set<nat>, view: View, p: nat, m': Mem)
    requires Sound(h, taken, view) && p in view && p in h.chunks && h.chunks[p].Small?
    requires h.chunks[p].cls < |h.free| && Word(m', p) == HeadOf(h.free[h.chunks[p].cls]) && SameOutside(h.mem, m', p, p + 8)
    ensures
      var c := h.chunks[p].cls;
      Sound(SlabHeap(m', h.chunks, h.free[c := [p] + h.free[c]]), taken, view - {p})
  {
    var c := h.chunks[p].cls;
    var l := [p] + h.free[c];
    var free' := h.free[c := l];
    Written(h, taken, view, p, m', p, p + 8);
    assert Seen(h.mem, h.chunks, h.free, view, p);
    Longer(m', h.chunks, h.free[c], c, p);
    var view' := view - {p};
    forall q ensures Seen(m', h.chunks, free', view', q) {
      assert Seen(h.mem, h.chunks, h.free, view, q);
      LivePush(h.chunks, h.free, c, p, q);
    }
  }

  /** The client writes a byte of its own. */
  lemma Poked(h: SlabHeap, taken: set<nat>, view: View, p: nat, m': Mem, k: nat)
    requires Sound(h, taken, view) && p in view && k < |view[p]| && SameOutside(h.mem, m', p + k, p + k + 1)
    ensures p in h.chunks && Sound(h.(mem := m'), taken, view[p := Payload(m', p, h.chunks[p])])
  {
    assert Seen(h.mem, h.chunks, h.free, view, p);
    Written(h, taken, view, p, m', p + k, p + k + 1);
    var view' := view[p := Payload(m', p, h.chunks[p])];
    forall q ensures Seen(m', h.chunks, h.free, view', q) {
      assert Seen(h.mem, h.chunks, h.free, view, q);
    }
  }

  /** Pages the heap does not hold contain no chunk. */
  lemma ClearPages(chunks: Chunks, taken: set<nat>, first: nat, n: nat)
    requires n > 0 && Laid(chunks, taken) && forall g: nat :: first <= g < first + n ==> g !in taken
    ensures ClearOf(chunks, first * PAGE, (first + n) * PAGE)
  {
    var lo, hi := first * PAGE, (first + n) * PAGE;
    forall p | p in chunks ensures Beyond(p, chunks[p], lo, hi) {
      var k := chunks[p];
      assert PlacedAt(chunks, taken, p);
      if !Beyond(p, k, lo, hi) {
        var a := if p <= lo + 8 then lo else p - 8;
        assert InExtent(p, k, a);
        PageOfByte(first, n, a);
      }
    }
  }

  lemma PageOfByte(first: nat, n: nat, a: nat)
    requires first * PAGE <= a < (first + n) * PAGE
    ensures first <= a / PAGE < first + n
  {}

  lemma LaidAdd(chunks: Chunks, taken: set<nat>, p: nat, k: Chunk)
    requires Laid(chunks, taken) && PlacedOk(p, k, taken) && ClearOf(chunks, p - 8, p - 8 + Length(k))
    ensures p !in chunks && Laid(chunks[p := k], taken)
  {
    assert Length(k) >= 24;
    forall q | q in chunks ensures q != p {
      assert PlacedAt(chunks, taken, q) && Beyond(q, chunks[q], p - 8, p - 8 + Length(k));
    }
    var chunks' := chunks[p := k];
    forall q: nat ensures PlacedAt(chunks', taken, q) {
      assert PlacedAt(chunks, taken, q);
    }
    forall q, r ensures Separate(chunks', q, r) {
      assert Separate(chunks, q, r);
      assert q in chunks ==> Beyond(q, chunks[q], p - 8, p - 8 + Length(k));
      assert r in chunks ==> Beyond(r, chunks[r], p - 8, p - 8 + Length(k));
    }
  }

  /** Chunks that were not there before do not disturb lists. */
  lemma ListsAdd(m: Mem, chunks: Chunks, free: seq<seq<nat>>, p: nat, k: Chunk)
    requires Lists(m, chunks, free) && p !in chunks
    ensures Lists(m, chunks[p := k], free)
    ensures forall c :: 0 <= c < CLASS_COUNT ==> p !in free[c]
  {
    forall c | 0 <= c < CLASS_COUNT ensures FreeList(m, chunks[p := k], free[c], c) && p !in free[c] {
      forall i | 0 <= i < |free[c]| ensures Node(m, chunks[p := k], free[c], c, i) && free[c][i] != p {
        assert Node(m, chunks, free[c], c, i);
      }
    }
  }

  /** `slab_refill` carves one block and links it. */
  lemma Carve(h: SlabHeap, taken: set<nat>, view: View, p: nat, c: nat, m': Mem)
    requires Sound(h, taken, view) && c < CLASS_COUNT && PlacedOk(p, Small(c), taken)
    requires ClearOf(h.chunks, p - 8, p - 8 + Length(Small(c))) && SameOutside(h.mem, m', p - 8, p + 8)
    requires HeaderOk(m', p, Small(c)) && Word(m', p) == HeadOf(h.free[c])
    ensures p !in h.chunks && Sound(SlabHeap(m', h.chunks[p := Small(c)], h.free[c := [p] + h.free[c]]), taken, view)
  {
    var chunks', free' := h.chunks[p := Small(c)], h.free[c := [p] + h.free[c]];
    assert SameOutside(h.mem, m', p - 8, p - 8 + Length(Small(c)));
    Scrub(h, taken, view, m', p - 8, p - 8 + Length(Small(c)));
    LaidAdd(h.chunks, taken, p, Small(c));
    ListsAdd(m', h.chunks, h.free, p, Small(c));
    Longer(m', chunks', h.free[c], c, p);
    forall q: nat ensures HeaderAt(m', chunks', q) {
      assert HeaderAt(m', h.chunks, q);
    }
    forall q ensures Seen(m', chunks', free', view, q) {
      assert Seen(m', h.chunks, h.free, view, q);
      LivePush(chunks', h.free, c, p, q);
    }
  }

  /** A large block appears. */
  lemma AddLarge(h: SlabHeap, taken: set<nat>, view: View, p: nat, n: nat, m': Mem)
    requires Sound(h, taken, view) && PlacedOk(p, Large(n), taken)
    requires ClearOf(h.chunks, p - 8, p - 8 + Length(Large(n))) && SameOutside(h.mem, m', p - 8, p) && HeaderOk(m', p, Large(n))
    ensures p !in h.chunks && p !in view
    ensures Sound(SlabHeap(m', h.chunks[p := Large(n)], h.free), taken, view[p := Payload(m', p, Large(n))])
  {
    var chunks', view' := h.chunks[p := Large(n)], view[p := Payload(m', p, Large(n))];
    assert SameOutside(h.mem, m', p - 8, p - 8 + Length(Large(n)));
    Scrub(h, taken, view, m', p - 8, p - 8 + Length(Large(n)));
    LaidAdd(h.chunks, taken, p, Large(n));
    ListsAdd(m', h.chunks, h.free, p, Large(n));
    assert Seen(m', h.chunks, h.free, view, p);
    forall q: nat ensures HeaderAt(m', chunks', q) {
      assert HeaderAt(m', h.chunks, q);
    }
    forall q ensures Seen(m', chunks', h.free, view', q) {
      assert Seen(m', h.chunks, h.free, view, q);
    }
  }

  lemma MoreTaken(h: SlabHeap, taken: set<nat>, more: set<nat>, view: View)
    requires Sound(h, taken, view) && taken <= more
    ensures Sound(h, more, view)
  {
    forall p | p in h.chunks ensures PlacedOk(p, h.chunks[p], more) {
      assert PlacedAt(h.chunks, taken, p);
    }
  }

  /** A large block goes and its whole pages with it; no other chunk is on them. */
  lemma DropLarge(h: SlabHeap, taken: set<nat>, view: View, p: nat, back: set<nat>)
    requires Sound(h, taken, view) && p in view && p in h.chunks && h.chunks[p].Large?
    requires forall g, a: nat :: g in back && a / PAGE == g ==> InExtent(p, h.chunks[p], a)
    ensures Sound(h.(chunks := h.chunks - {p}), taken - back, view - {p})
  {
    var chunks', view' := h.chunks - {p}, view - {p};
    forall q | q in chunks' ensures PlacedOk(q, chunks'[q], taken - back) {
      assert PlacedAt(h.chunks, taken, q) && Separate(h.chunks, p, q);
      forall a: nat | InExtent(q, h.chunks[q], a) ensures a / PAGE in taken - back {
        assert !InExtent(p, h.chunks[p], a);
      }
    }
    forall q, r ensures Separate(chunks', q, r) {
      assert Separate(h.chunks, q, r);
    }
    forall q: nat ensures HeaderAt(h.mem, chunks', q) {
      assert HeaderAt(h.mem, h.chunks, q);
    }
    forall c | 0 <= c < CLASS_COUNT ensures FreeList(h.mem, chunks', h.free[c], c) {
      forall i | 0 <= i < |h.free[c]| ensures Node(h.mem, chunks', h.free[c], c, i) {
        assert Node(h.mem, h.chunks, h.free[c], c, i);
      }
    }
    forall q ensures Seen(h.mem, chunks', h.free, view', q) {
      assert Seen(h.mem, h.chunks, h.free, view, q);
    }
  }

  // ----- sizes -----

  /** The first class whose objects are big enough; `CLASS_COUNT` when there is none. */
  ghost predicate IsClassFor(size: nat, c: nat) {
    c <= CLASS_COUNT && (c < CLASS_COUNT ==> size <= ObjSize(c)) && forall j :: 0 <= j < c ==> size > ObjSize(j)
  }

  function ClassFor(size: nat): (c: nat)
    ensures IsClassFor(size, c)
  {
    if size <= 16 then 0 else if size <= 32 then 1 else if size <= 64 then 2 else if size <= 128 then 3
    else if size <= 256 then 4 else if size <= 512 then 5 else if size <= 1024 then 6 else if size <= 2048 then 7 else 8
  }

  /** Pages of a large block, in 64-bit arithmetic. */
  function Pages(size: nat): nat {
    ((size + 8) % WORD_LIMIT + PAGE - 1) % WORD_LIMIT / PAGE
  }

  /** What a request gets. */
  function KindFor(size: nat): Chunk {
    if ClassFor(size) < CLASS_COUNT then Small(ClassFor(size)) else Large(Pages(size))
  }

  /** A block that is handed out is big enough exactly when adding the header does not wrap. */
  lemma GrantedIff(size: nat)
    requires size < WORD_LIMIT && KindOk(KindFor(size))
    ensures Length(KindFor(size)) - 8 >= size <==> size + 8 < WORD_LIMIT
  {
    if ClassFor(size) == CLASS_COUNT {
      assert size > ObjSize(7);
    }
  }

  /** And it is given no page more than it needs. */
  lemma FewestPages(size: nat, n: nat)
    requires size + 8 + 4095 < WORD_LIMIT
    ensures n * 4096 >= size + 8 <==> n >= Pages(size)
  {
    assert Pages(size) * 4096 < size + 8 + 4096;
  }

  /** The eight classes. */
  lemma ClassSizes(c: nat)
    requires c < CLASS_COUNT
    ensures CLASS_COUNT == 8 && ObjSize(c) == [16, 32, 64, 128, 256, 512, 1024, 2048][c]
    ensures PAGE / Length(Small(c)) == [170, 102, 56, 30, 15, 7, 3, 1][c]
  {}

  /** An example of the failing family: the largest request but one gets a single page. */
  lemma HugeRequestGetsOnePage()
    ensures Pages(WORD_LIMIT - 2) == 1
  {}

  // ----- counters -----

  datatype Cache = Cache(head: nat, objSize: nat, total: nat, used: nat)

  ghost function Carved(chunks: Chunks, c: nat): set<nat> {
    set p | p in chunks && chunks[p] == Small(c)
  }

  /** The counters of a class; `extra` blocks are carved but not yet counted. */
  ghost predicate CacheOk(a: Cache, chunks: Chunks, l: seq<nat>, c: nat, extra: nat) {
    && a.head == HeadOf(l) && a.objSize == ObjSize(c)
    && a.total + extra == |Carved(chunks, c)|
    && |l| == a.total + extra - a.used
  }

  /** All counters are right but for `extra` blocks of class `b` just carved. */
  ghost predicate CountedBut(caches: seq<Cache>, chunks: Chunks, free: seq<seq<nat>>, b: nat, extra: nat) {
    && |caches| == CLASS_COUNT == |free|
    && forall c :: 0 <= c < CLASS_COUNT ==> CacheOk(caches[c], chunks, free[c], c, if c == b then extra else 0)
  }

  ghost predicate Counted(caches: seq<Cache>, chunks: Chunks, free: seq<seq<nat>>) {
    CountedBut(caches, chunks, free, 0, 0)
  }

  lemma CarvedAdd(chunks: Chunks, p: nat, c: nat)
    requires p !in chunks
    ensures |Carved(chunks[p := Small(c)], c)| == |Carved(chunks, c)| + 1
    ensures forall d :: d != c ==> Carved(chunks[p := Small(c)], d) == Carved(chunks, d)
  {
    assert Carved(chunks[p := Small(c)], c) == Carved(chunks, c) + {p};
  }

  lemma CarvedLarge(chunks: Chunks, p: nat, n: nat)
    requires p !in chunks || chunks[p].Large?
    ensures forall c :: Carved(chunks[p := Large(n)], c) == Carved(chunks, c) == Carved(chunks - {p}, c)
  {}
}
