/** The segment loop of `elf_load`, src/loader/elf.c. The file's program headers are given as
    records; the bytes they place are those of the file. `data` is the memory the file was read
    into: its first `size` bytes are the file, and the rest lies behind it. */
module ElfLoader {
  import opened Machine
  import opened Outcomes
  import opened ByteMemory
  import opened PageTables
  import opened TableProofs
  import opened VmSteps
  import opened Spaces
  import opened UserCopy
  import Vmm

  datatype Segment = Segment(load: bool, writable: bool, offset: nat, vaddr: nat, filesz: nat, memsz: nat)

  datatype Image = Image(size: nat, magicOk: bool, is64: bool, isX86: bool, isExec: bool, entry: nat, segments: seq<Segment>, data: seq<byte>)

  const HEADER_BYTES: nat := 64

  /** A byte of that memory; the loader asks only for bytes inside it, see `ReadsInside`. */
  function FileByte(data: seq<byte>, i: nat): byte {
    if i < |data| then data[i] else 0
  }

  /** What the program header promises at `vaddr + k`. */
  function Promised(p: Segment, data: seq<byte>, k: nat): byte
    requires p.offset + p.filesz <= |data|
  {
    if k < p.filesz then data[p.offset + k] else 0
  }

  predicate InUserSpace(p: Segment) {
    p.vaddr + p.memsz + 4095 <= USER_TOP && p.filesz <= p.memsz
  }

  function FirstPage(p: Segment): nat {
    p.vaddr / PAGE
  }

  function EndPage(p: Segment): nat {
    (p.vaddr + p.memsz + 4095) / PAGE
  }

  // ----- one page -----

  /** Where in the page the file's bytes go, where in the file they start, and how many there are. */
  function CopyOffset(p: Segment, va: nat): nat {
    if p.vaddr > va then p.vaddr - va else 0
  }

  function FileOffset(p: Segment, va: nat): nat {
    if va < p.vaddr then p.offset else p.offset + (va - p.vaddr)
  }

  function CopySize(p: Segment, va: nat): nat
    requires p.vaddr < va + PAGE
  {
    if va >= p.vaddr + p.filesz then 0
    else
      var room, remaining := PAGE - CopyOffset(p, va), p.vaddr + p.filesz - va;
      if room > remaining then remaining else room
  }

  /** The bytes of the page at `va` once the loader is done with it. */
  function PageByte(p: Segment, data: seq<byte>, va: nat, i: nat): byte
    requires p.vaddr < va + PAGE
  {
    if CopyOffset(p, va) <= i < CopyOffset(p, va) + CopySize(p, va) then FileByte(data, FileOffset(p, va) + (i - CopyOffset(p, va)))
    else 0
  }

  /** The bytes copied for a page lie in the segment's part of the file, except that an unaligned
      first page may run past its end by the offset it starts at. */
  lemma ReadsInside(p: Segment, va: nat)
    requires p.vaddr < va + PAGE && CopySize(p, va) > 0
    ensures p.offset <= FileOffset(p, va) && FileOffset(p, va) + CopySize(p, va) <= p.offset + p.filesz + CopyOffset(p, va)
    ensures CopyOffset(p, va) < PAGE && (p.vaddr <= va ==> CopyOffset(p, va) == 0)
  {}

  /** The first page is copied right: it starts at the segment's address, or the file fills it, or
      there is no zero tail. A caller can test this before the call. */
  predicate StartsWell(p: Segment) {
    p.vaddr % PAGE == 0 || p.filesz >= PAGE - p.vaddr % PAGE || p.memsz <= p.filesz
  }

  /** The page that holds `vaddr + k` holds the promised byte. */
  lemma PageByteRight(p: Segment, data: seq<byte>, k: nat)
    requires StartsWell(p) && k < p.memsz && p.filesz <= p.memsz && p.offset + p.filesz <= |data|
    ensures
      var a := p.vaddr + k;
      PageByte(p, data, a - a % PAGE, a % PAGE) == Promised(p, data, k)
  {
    var a := p.vaddr + k;
    var va := a - a % PAGE;
    if va < p.vaddr {
      assert p.vaddr - va == p.vaddr % PAGE;
    }
  }

  /** A file of ones. */
  function Ones(n: nat): seq<byte> {
    seq<byte>(n, i => 1)
  }

  /** Otherwise some file shows the error: bytes past the file's part appear where zeros should. */
  lemma PageByteWrong(p: Segment)
    requires !StartsWell(p) && p.filesz <= p.memsz
    ensures
      var data, k := Ones(p.offset + p.filesz + PAGE), p.filesz;
      var a := p.vaddr + k;
      k < p.memsz && PageByte(p, data, a - a % PAGE, a % PAGE) != Promised(p, data, k)
  {
    var k := p.filesz;
    var a, off := p.vaddr + k, p.vaddr % PAGE;
    assert a / PAGE == p.vaddr / PAGE && a % PAGE == off + k;
  }

  // ----- pages in memory -----

  function PageBytes(p: Segment, data: seq<byte>, va: nat): (s: seq<byte>)
    requires p.vaddr < va + PAGE
    ensures |s| == PAGE && forall i :: 0 <= i < PAGE ==> s[i] == PageByte(p, data, va, i)
  {
    seq<byte>(PAGE, i requires 0 <= i < PAGE => PageByte(p, data, va, i))
  }

  /** The file's part of a page. */
  function Piece(p: Segment, data: seq<byte>, va: nat): (s: seq<byte>)
    requires p.vaddr < va + PAGE
    ensures |s| == CopySize(p, va)
    ensures forall j :: 0 <= j < |s| ==> s[j] == FileByte(data, FileOffset(p, va) + j)
  {
    seq<byte>(CopySize(p, va), j requires 0 <= j < CopySize(p, va) => FileByte(data, FileOffset(p, va) + j))
  }

  function Zeros(): (s: seq<byte>)
    ensures |s| == PAGE && forall i :: 0 <= i < PAGE ==> s[i] == 0
  {
    seq<byte>(PAGE, i => Zero())
  }

  function Zero(): byte { 0 }

  /** Clearing a frame and copying the piece gives the page, and touches no other byte. */
  lemma PageWritten(m: Mem, a: nat, p: Segment, data: seq<byte>, va: nat)
    requires p.vaddr < va + PAGE
    ensures
      var m' := Overwrite(Overwrite(m, a, Zeros()), a + CopyOffset(p, va), Piece(p, data, va));
      Bytes(m', a, PAGE) == PageBytes(p, data, va) && SameOutside(m, m', a, a + PAGE)
  {
    var m1 := Overwrite(m, a, Zeros());
    var m' := Overwrite(m1, a + CopyOffset(p, va), Piece(p, data, va));
    forall k: nat ensures Get(m', k) == if a <= k < a + PAGE then PageByte(p, data, va, k - a) else Get(m, k) {
      OverwriteAt(m, a, Zeros(), k);
      OverwriteAt(m1, a + CopyOffset(p, va), Piece(p, data, va), k);
    }
    assert Bytes(m', a, PAGE) == PageBytes(p, data, va);
  }

  /** What a page should hold, and the flags it should be mapped with. */
  datatype PageImage = PageImage(bytes: seq<byte>, flags: nat)

  function ImageOf(p: Segment, data: seq<byte>, va: nat): PageImage
    requires p.vaddr < va + PAGE
  {
    PageImage(PageBytes(p, data, va), Flags(p))
  }

  /** Page `n` is mapped as it should be, its frame is in use, and it holds the bytes it should. */
  ghost predicate PageLoaded(pages: map<nat, Pte>, m: Mem, free: set<nat>, loaded: map<nat, PageImage>, n: nat) {
    n in loaded ==>
      && n in pages && pages[n].flags == loaded[n].flags && pages[n].frame !in free
      && Bytes(m, pages[n].frame * PAGE, PAGE) == loaded[n].bytes
  }

  ghost predicate AllLoaded(pages: map<nat, Pte>, m: Mem, free: set<nat>, loaded: map<nat, PageImage>) {
    forall n: nat :: PageLoaded(pages, m, free, loaded, n)
  }

  /** A page filled on a fresh frame leaves the pages loaded before as they were. */
  lemma LoadedMore(pages: map<nat, Pte>, m: Mem, free: set<nat>, loaded: map<nat, PageImage>,
                   n: nat, e: Pte, m': Mem, free': set<nat>)
    requires AllLoaded(pages, m, free, loaded) && e.frame in free && free' <= free - {e.frame}
    requires Present(e) && SameOutside(m, m', e.frame * PAGE, e.frame * PAGE + PAGE)
    ensures AllLoaded(Put(pages, n, e), m', free', loaded[n := PageImage(Bytes(m', e.frame * PAGE, PAGE), e.flags)])
  {
    var pages', loaded' := Put(pages, n, e), loaded[n := PageImage(Bytes(m', e.frame * PAGE, PAGE), e.flags)];
    forall k: nat ensures PageLoaded(pages', m', free', loaded', k) {
      if k != n && k in loaded {
        assert PageLoaded(pages, m, free, loaded, k);
        var f := pages[k].frame;
        assert f * PAGE + PAGE <= e.frame * PAGE || e.frame * PAGE + PAGE <= f * PAGE;
        BytesSame(m, m', f * PAGE, PAGE);
      }
    }
  }

  // ----- what loading leaves alone -----

  /** A space and what it shares with the others. */
  datatype Moment = Moment(kernel: Kernel, pages: map<nat, Pte>, mem: Mem)

  ghost function At(space: Space): Moment
    requires space.mmu.pmm.Valid()
    reads space`pages, space.ram, space.mmu, space.mmu.pmm, space.mmu.pmm.bitmap
  {
    Moment(space.Shared(), space.pages, space.ram.bytes)
  }

  /** Memory changed on the given frames only. */
  ghost predicate ByteKept(m: Mem, m': Mem, frames: set<nat>, a: nat) {
    a / PAGE !in frames ==> Get(m', a) == Get(m, a)
  }

  ghost predicate OwnsFrames(a: Moment, limit: nat) {
    Owns(a.pages, a.kernel.free, a.kernel.vm.tables.Keys, limit)
  }

  /** Loading works on free frames: no other space sees it, pages get frames that were free, only
      such frames are written, and pages go on having frames of their own. */
  ghost predicate Loads(a: Moment, b: Moment, root: nat, limit: nat) {
    && Uses(a.kernel, b.kernel, root) && (OwnsFrames(a, limit) ==> OwnsFrames(b, limit))
    && (forall n: nat :: PageFrom(a.pages, b.pages, a.kernel.free, n))
    && (forall x: nat :: ByteKept(a.mem, b.mem, a.kernel.free, x))
  }

  /** The pages loaded since `a` are in place. */
  ghost predicate Upto(a: Moment, b: Moment, root: nat, limit: nat, loaded: map<nat, PageImage>) {
    match b
    case Moment(kernel, pages, mem) => Loads(a, b, root, limit) && AllLoaded(pages, mem, kernel.free, loaded)
  }

  lemma LoadsNothing(a: Moment, root: nat, limit: nat)
    requires WellFormed(a.kernel.vm)
    ensures Loads(a, a, root, limit)
  {
    ElsewhereRefl(a.kernel.vm, root);
  }

  lemma LoadsTrans(a: Moment, b: Moment, c: Moment, root: nat, limit: nat)
    requires Loads(a, b, root, limit) && Loads(b, c, root, limit)
    ensures Loads(a, c, root, limit)
  {
    UsesTrans(a.kernel, b.kernel, c.kernel, root);
    forall n: nat ensures PageFrom(a.pages, c.pages, a.kernel.free, n) {
      assert PageFrom(a.pages, b.pages, a.kernel.free, n) && PageFrom(b.pages, c.pages, b.kernel.free, n);
    }
    forall x: nat ensures ByteKept(a.mem, c.mem, a.kernel.free, x) {
      assert ByteKept(a.mem, b.mem, a.kernel.free, x) && ByteKept(b.mem, c.mem, b.kernel.free, x);
    }
  }

  lemma LoadsOne(a: Moment, b: Moment, root: nat, n: nat, e: Pte, limit: nat)
    requires Uses(a.kernel, b.kernel, root) && b.pages == Put(a.pages, n, e) && Present(e)
    requires e.frame in a.kernel.free && e.frame !in a.kernel.vm.tables && 0 < e.frame < limit
    requires b.kernel.free <= a.kernel.free - {e.frame}
    requires b.kernel.vm.tables.Keys <= a.kernel.vm.tables.Keys + (a.kernel.free - {e.frame})
    requires SameOutside(a.mem, b.mem, e.frame * PAGE, e.frame * PAGE + PAGE)
    ensures Loads(a, b, root, limit)
  {
    if OwnsFrames(a, limit) {
      OwnsMore(a.pages, a.kernel.free, a.kernel.vm.tables.Keys, limit, n, e, b.kernel.free, b.kernel.vm.tables.Keys);
    }
    forall x: nat ensures ByteKept(a.mem, b.mem, a.kernel.free, x) {
      if x / PAGE !in a.kernel.free {
        assert x < e.frame * PAGE || e.frame * PAGE + PAGE <= x;
        assert SameAt(a.mem, b.mem, x);
      }
    }
  }

  // ----- the loops -----

  function Flags(p: Segment): (f: nat)
    ensures f < 0x1000 && Allows(f, false) && Vmm.WithPresent(f) == f
  {
    if p.writable then 7 else 5   // present, user, and write where the header asks for it
  }

  /** The frame at `phys` is cleared and gets its part of the file. */
  method FillPage(space: Space, phys: nat, p: Segment, data: seq<byte>, va: nat)
    requires p.vaddr < va + PAGE
    modifies space.ram
    ensures Bytes(space.ram.bytes, phys, PAGE) == PageBytes(p, data, va) && SameOutside(old(space.ram.bytes), space.ram.bytes, phys, phys + PAGE)
  {
    PageWritten(space.ram.bytes, phys, p, data, va);
    space.Write(phys, Zeros());
    space.Write(phys + CopyOffset(p, va), Piece(p, data, va));
  }

  /** One turn of the page loop; false means that the allocator gave page 0. */
  method LoadPage(space: Space, p: Segment, data: seq<byte>, va: nat, ghost loaded: map<nat, PageImage>) returns (r: Outcome<bool>)
    requires space.Valid() && AllLoaded(space.pages, space.ram.bytes, space.Free(), loaded)
    requires p.vaddr < va + PAGE && va < USER_TOP
    modifies space`pages, space.ram, space.mmu`tables, space.mmu`labels, space.mmu.pmm, space.mmu.pmm.bitmap
    ensures space.mmu.pmm.Valid()
    ensures r.Panic? ==> space.Free() == {} || 0 in old(space.Free())
    ensures r == Done(false) ==> 0 in old(space.Free())
    ensures r.Done? && r.value ==>
      && space.Valid() && Loads(old(At(space)), At(space), space.root, space.mmu.pmm.pageCount)
      && AllLoaded(space.pages, space.ram.bytes, space.Free(), loaded[Vpn(va) := ImageOf(p, data, va)])
  {
    ghost var before := At(space);
    var phys := space.mmu.pmm.AllocPage();
    if phys.Panic? {
      return Panic;
    }
    if phys.value == 0 {
      return Done(false);
    }
    FillPage(space, phys.value, p, data, va);
    var done := space.Map(va, phys.value, Flags(p));
    if done.Panic? {
      return Panic;
    }
    PageDone(before, At(space), space.root, loaded, Vpn(va), Pte(phys.value / PAGE, Flags(p)), space.mmu.pmm.pageCount);
    r := Done(true);
  }

  /** A page on a fresh frame, as a whole. */
  lemma PageDone(a: Moment, b: Moment, root: nat, loaded: map<nat, PageImage>, n: nat, e: Pte, limit: nat)
    requires AllLoaded(a.pages, a.mem, a.kernel.free, loaded) && Present(e) && e.frame in a.kernel.free && 0 < e.frame < limit
    requires e.frame !in a.kernel.vm.tables && b.kernel.free <= a.kernel.free - {e.frame}
    requires b.kernel.vm.tables.Keys <= a.kernel.vm.tables.Keys + (a.kernel.free - {e.frame})
    requires Elsewhere(a.kernel.vm, b.kernel.vm, root) && b.pages == Put(a.pages, n, e)
    requires SameOutside(a.mem, b.mem, e.frame * PAGE, e.frame * PAGE + PAGE)
    ensures Loads(a, b, root, limit)
    ensures AllLoaded(b.pages, b.mem, b.kernel.free, loaded[n := PageImage(Bytes(b.mem, e.frame * PAGE, PAGE), e.flags)])
  {
    LoadedMore(a.pages, a.mem, a.kernel.free, loaded, n, e, b.mem, b.kernel.free);
    LoadsOne(a, b, root, n, e, limit);
  }

  /** The pages of a segment hold what the loader puts there. */
  ghost predicate SegmentIn(loaded: map<nat, PageImage>, p: Segment, data: seq<byte>) {
    forall n: nat :: SegmentPage(loaded, p, data, n)
  }

  ghost predicate SegmentPage(loaded: map<nat, PageImage>, p: Segment, data: seq<byte>, n: nat) {
    FirstPage(p) <= n < EndPage(p) && p.vaddr < n * PAGE + PAGE ==> n in loaded && loaded[n] == ImageOf(p, data, n * PAGE)
  }

  /** Only pages of the segment were loaded anew. */
  ghost predicate OnlyPages(before: map<nat, PageImage>, after: map<nat, PageImage>, from: nat, to: nat) {
    forall n: nat :: PageKept(before, after, from, to, n)
  }

  ghost predicate PageKept(before: map<nat, PageImage>, after: map<nat, PageImage>, from: nat, to: nat, n: nat) {
    n in before && !(from <= n < to) ==> n in after && after[n] == before[n]
  }

  /** The pages `FirstPage(p) .. n` are loaded. */
  ghost predicate Filled(before: map<nat, PageImage>, after: map<nat, PageImage>, p: Segment, data: seq<byte>, n: nat) {
    && OnlyPages(before, after, FirstPage(p), n)
    && forall k: nat :: FirstPage(p) <= k < n ==> SegmentPage(after, p, data, k)
  }

  lemma FilledOne(before: map<nat, PageImage>, mid: map<nat, PageImage>, after: map<nat, PageImage>, p: Segment, data: seq<byte>, n: nat)
    requires Filled(before, mid, p, data, n) && FirstPage(p) <= n && p.vaddr < n * PAGE + PAGE
    requires after == mid[n := ImageOf(p, data, n * PAGE)]
    ensures Filled(before, after, p, data, n + 1)
  {
    var next := n + 1;
    forall k: nat ensures PageKept(before, after, FirstPage(p), next, k) {
      assert PageKept(before, mid, FirstPage(p), n, k);
    }
    forall k: nat | FirstPage(p) <= k < next ensures SegmentPage(after, p, data, k) {
      assert k < n ==> SegmentPage(mid, p, data, k);
    }
  }

  lemma FirstPageStart(p: Segment)
    ensures FirstPage(p) * PAGE == p.vaddr - p.vaddr % PAGE && p.vaddr < FirstPage(p) * PAGE + PAGE
  {}

  /** The page loop of one segment. */
  method LoadSegment(space: Space, p: Segment, data: seq<byte>, ghost before: map<nat, PageImage>)
    returns (r: Outcome<bool>, ghost loaded: map<nat, PageImage>)
    requires space.Valid() && AllLoaded(space.pages, space.ram.bytes, space.Free(), before) && InUserSpace(p)
    modifies space`pages, space.ram, space.mmu`tables, space.mmu`labels, space.mmu.pmm, space.mmu.pmm.bitmap
    ensures space.mmu.pmm.Valid()
    ensures r.Panic? ==> space.Free() == {} || 0 in old(space.Free())
    ensures r == Done(false) ==> 0 in old(space.Free())
    ensures r.Done? && r.value ==> space.Valid() && Upto(old(At(space)), At(space), space.root, space.mmu.pmm.pageCount, loaded)
    ensures r.Done? && r.value ==> OnlyPages(before, loaded, FirstPage(p), EndPage(p)) && SegmentIn(loaded, p, data)
  {
    loaded := before;
    ghost var start := At(space);
    LoadsNothing(start, space.root, space.mmu.pmm.pageCount);
    FirstPageStart(p);
    var va := p.vaddr - p.vaddr % PAGE;
    ghost var n := FirstPage(p);
    var end := (p.vaddr + p.memsz + 4095) / PAGE * PAGE;
    while va < end
      invariant va == n * PAGE && FirstPage(p) <= n && (n <= EndPage(p) || n == FirstPage(p))
      invariant space.Valid() && Upto(start, At(space), space.root, space.mmu.pmm.pageCount, loaded)
      invariant Filled(before, loaded, p, data, n)
      decreases end - va
    {
      r, loaded := LoadNext(space, p, data, va, n, before, loaded, start);
      if r.Panic? || !r.value {
        return;
      }
      va := va + PAGE;
      n := n + 1;
    }
    WholeSegment(before, loaded, p, data, n);
    r := Done(true);
  }

  /** A turn of the page loop, with what the turns before it did. */
  method LoadNext(space: Space, p: Segment, data: seq<byte>, va: nat, ghost n: nat,
                  ghost before: map<nat, PageImage>, ghost mid: map<nat, PageImage>, ghost start: Moment)
    returns (r: Outcome<bool>, ghost loaded: map<nat, PageImage>)
    requires space.Valid() && InUserSpace(p) && Upto(start, At(space), space.root, space.mmu.pmm.pageCount, mid)
    requires va == n * PAGE && FirstPage(p) <= n < EndPage(p) && Filled(before, mid, p, data, n)
    modifies space`pages, space.ram, space.mmu`tables, space.mmu`labels, space.mmu.pmm, space.mmu.pmm.bitmap
    ensures space.mmu.pmm.Valid()
    ensures r.Panic? ==> space.Free() == {} || 0 in start.kernel.free
    ensures r == Done(false) ==> 0 in start.kernel.free
    ensures r.Done? && r.value ==> space.Valid() && Upto(start, At(space), space.root, space.mmu.pmm.pageCount, loaded)
    ensures r.Done? && r.value ==> Filled(before, loaded, p, data, n + 1)
  {
    ghost var now := At(space);
    OfSegment(p, n);
    r := LoadPage(space, p, data, va, mid);
    loaded := mid[n := ImageOf(p, data, va)];
    if r.Done? && r.value {
      LoadsTrans(start, now, At(space), space.root, space.mmu.pmm.pageCount);
      FilledOne(before, mid, loaded, p, data, n);
    }
  }

  /** A page of a segment is a user page that the segment reaches into. */
  lemma OfSegment(p: Segment, n: nat)
    requires InUserSpace(p) && FirstPage(p) <= n < EndPage(p)
    ensures n * PAGE < USER_TOP && p.vaddr < n * PAGE + PAGE && Vpn(n * PAGE) == n
  {
    assert p.vaddr < FirstPage(p) * PAGE + PAGE;
    assert (n + 1) * PAGE <= EndPage(p) * PAGE;
  }

  lemma WholeSegment(before: map<nat, PageImage>, loaded: map<nat, PageImage>, p: Segment, data: seq<byte>, n: nat)
    requires Filled(before, loaded, p, data, n) && n >= EndPage(p) && FirstPage(p) <= n && (n <= EndPage(p) || n == FirstPage(p))
    ensures OnlyPages(before, loaded, FirstPage(p), EndPage(p)) && SegmentIn(loaded, p, data)
  {
    forall k: nat ensures PageKept(before, loaded, FirstPage(p), EndPage(p), k) && SegmentPage(loaded, p, data, k) {
      assert PageKept(before, loaded, FirstPage(p), n, k);
    }
  }

  // ----- the whole file -----

  /** The headers stay inside the user half and the file, and there is a page of memory behind it. */
  ghost predicate Loadable(image: Image) {
    && image.size + PAGE <= |image.data|
    && forall i :: 0 <= i < |image.segments| && image.segments[i].load ==> InFile(image, image.segments[i])
  }

  ghost predicate InFile(image: Image, p: Segment) {
    InUserSpace(p) && p.offset + p.filesz <= image.size
  }

  /** A load segment between `j` and `i` covers page `n` too. */
  ghost predicate Overlaid(image: Image, j: nat, i: nat, n: nat) {
    exists k :: j < k < i && k < |image.segments| && Covers(image.segments[k], n)
  }

  predicate Covers(p: Segment, n: nat) {
    p.load && FirstPage(p) <= n < EndPage(p)
  }

  /** Page `n` of segment `j` is in place, unless a later segment covers it. */
  ghost predicate PageInPlace(loaded: map<nat, PageImage>, image: Image, i: nat, j: nat, n: nat) {
    j < i && j < |image.segments| && image.segments[j].load && !Overlaid(image, j, i, n) ==>
      SegmentPage(loaded, image.segments[j], image.data, n)
  }

  /** The load segments before `i` are in place; where two cover a page, the later one has it. */
  ghost predicate SegmentsIn(loaded: map<nat, PageImage>, image: Image, i: nat) {
    forall j: nat, n: nat :: PageInPlace(loaded, image, i, j, n)
  }

  /** A segment that shares no page with a later one is in place as a whole. */
  lemma WholeInPlace(loaded: map<nat, PageImage>, image: Image, j: nat)
    requires SegmentsIn(loaded, image, |image.segments|) && j < |image.segments| && image.segments[j].load
    requires forall k :: j < k < |image.segments| && image.segments[k].load ==> PagesApart(image.segments[j], image.segments[k])
    ensures SegmentIn(loaded, image.segments[j], image.data)
  {
    forall n: nat ensures SegmentPage(loaded, image.segments[j], image.data, n) {
      assert PageInPlace(loaded, image, |image.segments|, j, n);
      assert forall k :: j < k < |image.segments| && Covers(image.segments[k], n) ==> PagesApart(image.segments[j], image.segments[k]);
    }
  }

  predicate PagesApart(p: Segment, q: Segment) {
    EndPage(p) <= FirstPage(q) || EndPage(q) <= FirstPage(p)
  }

  predicate BadHeader(image: Image) {
    image.size < HEADER_BYTES || !image.magicOk || !image.is64 || !image.isX86 || !image.isExec
  }

  /** `elf_load`: 0 for a file that is refused, the entry point otherwise. */
  method ElfLoad(space: Space, image: Image) returns (r: Outcome<nat>, ghost loaded: map<nat, PageImage>)
    requires space.Valid() && Loadable(image)
    modifies space`pages, space.ram, space.mmu`tables, space.mmu`labels, space.mmu.pmm, space.mmu.pmm.bitmap
    ensures image.size < 64 || !image.magicOk || !image.is64 || !image.isX86 || !image.isExec ==> r == Done(0)
    ensures space.mmu.pmm.Valid()
    ensures r.Panic? ==> space.Free() == {} || 0 in old(space.Free())
    ensures r == Done(0) ==>
      || image.size < 64 || !image.magicOk || !image.is64 || !image.isX86 || !image.isExec
      || image.entry == 0 || 0 in old(space.Free())
    ensures r.Done? && (r.value != 0 || 0 !in old(space.Free())) ==>
      space.Valid() && Loads(old(At(space)), At(space), space.root, space.mmu.pmm.pageCount)
    ensures r.Done? && r.value != 0 ==>
      && r.value == image.entry && space.Valid()
      && AllLoaded(space.pages, space.ram.bytes, space.Free(), loaded) && SegmentsIn(loaded, image, |image.segments|)
  {
    loaded := map[];
    ghost var start := At(space);
    LoadsNothing(start, space.root, space.mmu.pmm.pageCount);
    if BadHeader(image) {
      return Done(0), loaded;
    }
    var i := 0;
    while i < |image.segments|
      invariant 0 <= i <= |image.segments| && space.Valid() && SegmentsIn(loaded, image, i)
      invariant Upto(start, At(space), space.root, space.mmu.pmm.pageCount, loaded)
    {
      var done;
      done, loaded := SegmentNext(space, image, i, loaded, start);
      if done.Panic? {
        return Panic, loaded;
      }
      if !done.value {
        return Done(0), loaded;
      }
      i := i + 1;
    }
    r := Done(image.entry);
  }

  /** One turn of the loop over the program headers. */
  method SegmentNext(space: Space, image: Image, i: nat, ghost before: map<nat, PageImage>, ghost start: Moment)
    returns (r: Outcome<bool>, ghost loaded: map<nat, PageImage>)
    requires space.Valid() && Loadable(image) && i < |image.segments| && SegmentsIn(before, image, i)
    requires Upto(start, At(space), space.root, space.mmu.pmm.pageCount, before)
    modifies space`pages, space.ram, space.mmu`tables, space.mmu`labels, space.mmu.pmm, space.mmu.pmm.bitmap
    ensures space.mmu.pmm.Valid()
    ensures r.Panic? ==> space.Free() == {} || 0 in start.kernel.free
    ensures r == Done(false) ==> 0 in start.kernel.free
    ensures r.Done? && r.value ==> space.Valid() && Upto(start, At(space), space.root, space.mmu.pmm.pageCount, loaded)
    ensures r.Done? && r.value ==> SegmentsIn(loaded, image, i + 1)
  {
    if !image.segments[i].load {
      SegmentSkipped(before, image, i);
      return Done(true), before;
    }
    ghost var now := At(space);
    r, loaded := LoadSegment(space, image.segments[i], image.data, before);
    if r.Done? && r.value {
      LoadsTrans(start, now, At(space), space.root, space.mmu.pmm.pageCount);
      SegmentsStay(before, loaded, image, i);
    }
  }

  lemma SegmentSkipped(loaded: map<nat, PageImage>, image: Image, i: nat)
    requires i < |image.segments| && !image.segments[i].load && SegmentsIn(loaded, image, i)
    ensures SegmentsIn(loaded, image, i + 1)
  {
    var next := i + 1;
    forall j: nat, n: nat ensures PageInPlace(loaded, image, next, j, n) {
      assert PageInPlace(loaded, image, i, j, n);
      if Overlaid(image, j, i, n) {
        var k :| j < k < i && k < |image.segments| && Covers(image.segments[k], n);
        assert Overlaid(image, j, next, n);
      }
    }
  }

  lemma SegmentsStay(before: map<nat, PageImage>, after: map<nat, PageImage>, image: Image, i: nat)
    requires Loadable(image) && i < |image.segments| && image.segments[i].load && SegmentsIn(before, image, i)
    requires OnlyPages(before, after, FirstPage(image.segments[i]), EndPage(image.segments[i]))
    requires SegmentIn(after, image.segments[i], image.data)
    ensures SegmentsIn(after, image, i + 1)
  {
    var next, q := i + 1, image.segments[i];
    forall j: nat, n: nat ensures PageInPlace(after, image, next, j, n) {
      if j < i && image.segments[j].load && !Overlaid(image, j, next, n) {
        assert !Covers(q, n);
        assert forall k :: j < k < i && Covers(image.segments[k], n) ==> Overlaid(image, j, next, n);
        assert PageInPlace(before, image, i, j, n) && PageKept(before, after, FirstPage(q), EndPage(q), n);
      } else if j == i {
        assert SegmentPage(after, q, image.data, n);
      }
    }
  }

  /** Reading through the page tables gives, at every address of a segment, the byte its program
      header promises; the user may write there exactly when the header says so. */
  lemma LoadedReads(pages: map<nat, Pte>, m: Mem, free: set<nat>, loaded: map<nat, PageImage>, p: Segment, data: seq<byte>, k: nat)
    requires AllLoaded(pages, m, free, loaded) && SegmentIn(loaded, p, data)
    requires InUserSpace(p) && StartsWell(p) && k < p.memsz && p.offset + p.filesz <= |data|
    ensures Reach(pages, p.vaddr + k, false).Some? && (Reach(pages, p.vaddr + k, true).Some? <==> p.writable)
    ensures Get(m, Reach(pages, p.vaddr + k, false).value) == Promised(p, data, k)
  {
    var a := p.vaddr + k;
    var n := a / PAGE;
    assert Vpn(a) == n && n * PAGE == a - a % PAGE;
    assert SegmentPage(loaded, p, data, n) && PageLoaded(pages, m, free, loaded, n);
    var bytes := PageBytes(p, data, n * PAGE);
    assert Bytes(m, pages[n].frame * PAGE, PAGE)[a % PAGE] == bytes[a % PAGE];
    PageByteRight(p, data, k);
  }
}
