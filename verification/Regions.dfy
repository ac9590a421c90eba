/** `sys_mmap` at address 0 and `sys_munmap`, src/userspace/syscall.c: a region list, newest first,
    over user pages that each have a frame of their own. */
module Regions {
  import opened Machine
  import opened Outcomes
  import opened ByteMemory
  import opened PageTables
  import opened TableProofs
  import opened VmSteps
  import opened Spaces
  import Pmm

  const USER_FLAGS: nat := 7   // present, writable, user

  datatype Region = Region(base: nat, size: nat)

  ghost function PagesIn(r: Region): set<nat> {
    Pmm.Run(r.base / PAGE, r.size / PAGE)
  }

  ghost function PagesOf(rs: seq<Region>): set<nat> {
    if rs == [] then {} else PagesIn(rs[0]) + PagesOf(rs[1..])
  }

  predicate Placed(r: Region, top: nat) {
    r.base % PAGE == 0 && r.size % PAGE == 0 && r.base + r.size <= top
  }

  /** Newer regions lie above older ones, and none overlap. */
  ghost predicate Stacked(rs: seq<Region>, top: nat) {
    && (forall i :: 0 <= i < |rs| ==> Placed(rs[i], top))
    && (forall i, j :: 0 <= i < j < |rs| ==> rs[j].base + rs[j].size <= rs[i].base)
  }

  // ----- the list -----

  lemma {:induction false} PagesBelow(rs: seq<Region>, top: nat)
    requires Stacked(rs, top) && top % PAGE == 0
    ensures forall n :: n in PagesOf(rs) ==> n < top / PAGE
  {
    if rs != [] {
      StackedTail(rs, top);
      PagesBelow(rs[1..], top);
      forall n | n in PagesIn(rs[0]) ensures n < top / PAGE {
        assert Pmm.InRun(n, rs[0].base / PAGE, rs[0].size / PAGE);
        assert rs[0].base / PAGE + rs[0].size / PAGE <= top / PAGE;
      }
    }
  }

  lemma StackedTail(rs: seq<Region>, top: nat)
    requires Stacked(rs, top) && rs != []
    ensures Stacked(rs[1..], top) && Placed(rs[0], top)
  {
    forall i | 0 <= i < |rs| - 1 ensures Placed(rs[1..][i], top) {
      assert Placed(rs[i + 1], top);
    }
  }

  lemma StackedWithout(rs: seq<Region>, top: nat, k: nat)
    requires Stacked(rs, top) && k < |rs|
    ensures Stacked(rs[..k] + rs[k + 1..], top)
  {
    var less := rs[..k] + rs[k + 1..];
    forall i | 0 <= i < |less| ensures Placed(less[i], top) {
      assert Placed(rs[if i < k then i else i + 1], top);
    }
  }

  lemma {:induction false} PagesWithout(rs: seq<Region>, top: nat, k: nat)
    requires Stacked(rs, top) && k < |rs|
    ensures PagesOf(rs[..k] + rs[k + 1..]) == PagesOf(rs) - PagesIn(rs[k]) && PagesIn(rs[k]) <= PagesOf(rs)
  {
    var less := rs[..k] + rs[k + 1..];
    StackedTail(rs, top);
    if k == 0 {
      assert less == rs[1..];
      OtherPages(rs[1..], top, rs[0]);
    } else {
      PagesWithout(rs[1..], top, k - 1);
      assert less[0] == rs[0] && less[1..] == rs[1..][..k - 1] + rs[1..][k..];
      assert Placed(rs[k], top);
      TwoRegions(rs[k], rs[0], top);
    }
  }

  lemma TwoRegions(low: Region, high: Region, top: nat)
    requires Placed(low, top) && Placed(high, top) && low.base + low.size <= high.base
    ensures PagesIn(low) !! PagesIn(high)
  {
    assert low.base / PAGE + low.size / PAGE <= high.base / PAGE;
    forall n | n in PagesIn(low) ensures n !in PagesIn(high) {
      assert Pmm.InRun(n, low.base / PAGE, low.size / PAGE);
    }
  }

  /** Older regions share no page with a newer one. */
  lemma {:induction false} OtherPages(rs: seq<Region>, top: nat, r: Region)
    requires Stacked(rs, top) && Placed(r, top) && forall i :: 0 <= i < |rs| ==> rs[i].base + rs[i].size <= r.base
    ensures PagesOf(rs) !! PagesIn(r)
  {
    if rs != [] {
      StackedTail(rs, top);
      TwoRegions(rs[0], r, top);
      OtherPages(rs[1..], top, r);
    }
  }

  /** The first region that starts at an address. */
  function FindRegion(rs: seq<Region>, base: nat, from: nat := 0): (i: nat)
    requires from <= |rs|
    ensures from <= i <= |rs| && (i < |rs| ==> rs[i].base == base)
    ensures forall j :: from <= j < i ==> rs[j].base != base
    decreases |rs| - from
  {
    if from == |rs| || rs[from].base == base then from else FindRegion(rs, base, from + 1)
  }

  /** The list once `sys_munmap` has looked for an address. */
  function Dropped(rs: seq<Region>, base: nat): seq<Region> {
    var k := FindRegion(rs, base);
    if k == |rs| then rs else rs[..k] + rs[k + 1..]
  }

  /** The call names a listed region with its own size. */
  predicate IsWhole(rs: seq<Region>, base: nat, size: nat) {
    var k := FindRegion(rs, base);
    k < |rs| && rs[k].size == PageCount(size) * PAGE
  }

  lemma DroppedWhole(rs: seq<Region>, top: nat, base: nat, size: nat)
    requires Stacked(rs, top)
    ensures Stacked(Dropped(rs, base), top)
    ensures IsWhole(rs, base, size) ==> PagesOf(Dropped(rs, base)) == PagesOf(rs) - Pmm.Run(base / PAGE, PageCount(size))
  {
    var k := FindRegion(rs, base);
    if k < |rs| {
      StackedWithout(rs, top, k);
      PagesWithout(rs, top, k);
      assert PageCount(size) * PAGE / PAGE == PageCount(size);
    }
  }

  /** A region is the one `sys_munmap` finds at its address exactly when it has pages, or is the
      newest, or the next newer one starts elsewhere. */
  lemma FoundByBase(rs: seq<Region>, top: nat, i: nat)
    requires Stacked(rs, top) && i < |rs|
    ensures FindRegion(rs, rs[i].base) == i <==> rs[i].size > 0 || i == 0 || rs[i - 1].base != rs[i].base
  {
    if rs[i].size > 0 || i == 0 || rs[i - 1].base != rs[i].base {
      forall j | 0 <= j < i ensures rs[j].base != rs[i].base {
        assert j < i - 1 ==> rs[i - 1].base + rs[i - 1].size <= rs[j].base;
      }
    }
  }

  /** An example of the failing family: an empty region, and a later one at the same address. */
  lemma EmptyRegionHidden(base: nat)
    requires base % PAGE == 0
    ensures
      var rs := [Region(base, PAGE), Region(base, 0)];
      Stacked(rs, base + PAGE) && FindRegion(rs, base) == 0
  {
    var rs := [Region(base, PAGE), Region(base, 0)];
    assert Placed(rs[0], base + PAGE) && Placed(rs[1], base + PAGE);
  }

  /** Pages for a request, in 64-bit arithmetic. */
  function PageCount(size: nat): nat {
    (size + 4095) % WORD_LIMIT / PAGE
  }

  /** A mapping covers its request exactly when rounding up does not wrap. */
  lemma CoversIff(size: nat)
    requires size < WORD_LIMIT
    ensures PageCount(size) * PAGE >= size <==> size + 4095 < WORD_LIMIT
  {}

  /** And no smaller number of pages covers it. */
  lemma FewestPages(size: nat, n: nat)
    requires size + 4095 < WORD_LIMIT
    ensures n * 4096 >= size <==> n >= PageCount(size)
  {
    assert PageCount(size) * 4096 < size + 4096;
  }

  /** An example of the failing family: the largest request gets no page. */
  lemma HugeMappingIsEmpty()
    ensures PageCount(WORD_LIMIT - 1) == 0
  {}

  // ----- what the loops do -----

  /** The frames of the pages mapped among `count` pages from page `b` on. */
  ghost function FramesOf(pages: map<nat, Pte>, b: nat, count: nat): set<nat> {
    if count == 0 then {}
    else FramesOf(pages, b, count - 1) + if b + count - 1 in pages then {pages[b + count - 1].frame} else {}
  }

  lemma {:induction false} FramesAre(pages: map<nat, Pte>, b: nat, count: nat, g: nat)
    ensures g in FramesOf(pages, b, count) <==> exists n :: Pmm.InRun(n, b, count) && n in pages && pages[n].frame == g
  {
    if count > 0 {
      FramesAre(pages, b, count - 1, g);
      if g in FramesOf(pages, b, count - 1) {
        var n :| Pmm.InRun(n, b, count - 1) && n in pages && pages[n].frame == g;
        assert Pmm.InRun(n, b, count);
      } else if b + count - 1 in pages && pages[b + count - 1].frame == g {
        assert Pmm.InRun(b + count - 1, b, count);
      } else {
        forall n | Pmm.InRun(n, b, count) && n in pages ensures pages[n].frame != g {
          assert n == b + count - 1 || Pmm.InRun(n, b, count - 1);
        }
      }
    }
  }

  /** All mappings of a space, and the frames no one has. */
  datatype Holding = Holding(pages: map<nat, Pte>, free: set<nat>)

  /** What is left once page `n` was unmapped, if it was mapped. */
  ghost function Without(h: Holding, n: nat): Holding {
    if n in h.pages then Holding(h.pages - {n}, h.free + {h.pages[n].frame}) else h
  }

  /** The pages `b .. b + count` are gone and exactly their frames are free again. */
  ghost predicate Released(h: Holding, b: nat, count: nat, h': Holding) {
    match h'
    case Holding(pages', free') => pages' == h.pages - Pmm.Run(b, count) && free' == h.free + FramesOf(h.pages, b, count)
  }

  lemma ReleasedNone(h: Holding, b: nat)
    ensures Released(h, b, 0, h)
  {
    assert Pmm.Run(b, 0) == {};
  }

  lemma ReleasedOne(h: Holding, b: nat, i: nat, h1: Holding)
    requires Released(h, b, i, h1)
    ensures Released(h, b, i + 1, Without(h1, b + i))
  {
    RunMore(b, i);
  }

  lemma RunMore(b: nat, i: nat)
    ensures Pmm.Run(b, i + 1) == Pmm.Run(b, i) + {b + i} && b + i !in Pmm.Run(b, i)
  {
    forall n: nat ensures n in Pmm.Run(b, i + 1) <==> n in Pmm.Run(b, i) || n == b + i {
      assert Pmm.InRun(n, b, i + 1) <==> Pmm.InRun(n, b, i) || n == b + i;
    }
  }

  /** The pages `ns` are mapped for the user on frames that were free, and no other page changed. */
  ghost predicate Grew(before: map<nat, Pte>, after: map<nat, Pte>, ns: set<nat>, free: set<nat>) {
    forall n: nat :: GrewAt(before, after, ns, free, n)
  }

  ghost predicate GrewAt(before: map<nat, Pte>, after: map<nat, Pte>, ns: set<nat>, free: set<nat>, n: nat) {
    if n in ns then n in after && after[n].flags == USER_FLAGS && after[n].frame in free
    else (n in after <==> n in before) && (n in after ==> after[n] == before[n])
  }

  lemma GrewOne(before: map<nat, Pte>, mid: map<nat, Pte>, ns: set<nat>, free: set<nat>, n: nat, e: Pte)
    requires Grew(before, mid, ns, free) && e.flags == USER_FLAGS && e.frame in free
    ensures Grew(before, Put(mid, n, e), ns + {n}, free)
  {
    var after, ns' := Put(mid, n, e), ns + {n};
    forall k: nat ensures GrewAt(before, after, ns', free, k) {
      assert GrewAt(before, mid, ns, free, k);
    }
  }

  lemma GrewNone(pages: map<nat, Pte>, b: nat, free: set<nat>)
    ensures Grew(pages, pages, Pmm.Run(b, 0), free)
  {
    assert Pmm.Run(b, 0) == {};
  }

  /** Work in space `root` that took no frame for a table. */
  ghost predicate Keeps(k: Kernel, k': Kernel, root: nat) {
    Elsewhere(k.vm, k'.vm, root) && k'.vm.tables.Keys == k.vm.tables.Keys
  }

  lemma KeepsTrans(a: Kernel, b: Kernel, c: Kernel, root: nat)
    requires Keeps(a, b, root) && Keeps(b, c, root)
    ensures Keeps(a, c, root)
  {
    ElsewhereTrans(a.vm, b.vm, c.vm, root);
  }

  /** The page at offset `i` of a region. */
  lemma PageAt(base: nat, i: nat, count: nat)
    requires base + count * PAGE <= USER_TOP && i < count
    ensures Vpn(base + i * PAGE) == base / PAGE + i
    ensures Pmm.Run(base / PAGE, i + 1) == Pmm.Run(base / PAGE, i) + {base / PAGE + i}
    ensures base / PAGE + i !in Pmm.Run(base / PAGE, i) && base / PAGE + i in Pmm.Run(base / PAGE, count)
  {
    assert (base + i * PAGE) / PAGE == base / PAGE + i;
    assert i * PAGE < count * PAGE;
    RunMore(base / PAGE, i);
    assert Pmm.InRun(base / PAGE + i, base / PAGE, count);
  }

  lemma ListMore(rs: seq<Region>, top: nat, count: nat)
    requires Stacked(rs, top) && top % PAGE == 0
    ensures
      var r := Region(top, count * PAGE);
      && Stacked([r] + rs, top + count * PAGE) && (top + count * PAGE) % PAGE == 0
      && PagesOf([r] + rs) == PagesIn(r) + PagesOf(rs) && PagesIn(r) == Pmm.Run(top / PAGE, count)
      && PagesIn(r) !! PagesOf(rs)
  {
    var r := Region(top, count * PAGE);
    var more := [r] + rs;
    assert more[1..] == rs && count * PAGE / PAGE == count;
    forall i | 0 <= i < |more| ensures Placed(more[i], top + count * PAGE) {
      assert i > 0 ==> Placed(rs[i - 1], top);
    }
    forall i, j | 0 <= i < j < |more| ensures more[j].base + more[j].size <= more[i].base {
      assert Placed(rs[j - 1], top);
    }
    PagesBelow(rs, top);
  }

  /** The pages of `mmap`: below the top, and mapped for the user. */
  ghost predicate MappedOk(pages: map<nat, Pte>, mapped: set<nat>, top: nat) {
    forall n: nat :: MappedAt(pages, mapped, top, n)
  }

  ghost predicate MappedAt(pages: map<nat, Pte>, mapped: set<nat>, top: nat, n: nat) {
    n in mapped ==> n < top / PAGE && n in pages && pages[n].flags == USER_FLAGS
  }

  /** A new region at the top, listed. */
  lemma EnlistStep(before: map<nat, Pte>, after: map<nat, Pte>, mapped: set<nat>, free: set<nat>, rs: seq<Region>, top: nat, count: nat)
    requires Stacked(rs, top) && top % PAGE == 0 && MappedOk(before, mapped, top)
    requires Grew(before, after, Pmm.Run(top / PAGE, count), free)
    ensures
      var r, top' := Region(top, count * PAGE), top + count * PAGE;
      && Stacked([r] + rs, top') && top' % PAGE == 0 && MappedOk(after, mapped + PagesIn(r), top')
      && Grew(before, after, PagesIn(r), free) && PagesIn(r) !! mapped
      && (mapped == PagesOf(rs) ==> mapped + PagesIn(r) == PagesOf([r] + rs))
  {
    ListMore(rs, top, count);
    var ns, top' := Pmm.Run(top / PAGE, count), top + count * PAGE;
    forall n: nat ensures MappedAt(after, mapped + ns, top', n) && (n in ns ==> n !in mapped) {
      assert MappedAt(before, mapped, top, n) && GrewAt(before, after, ns, free, n);
      assert n in ns <==> Pmm.InRun(n, top / PAGE, count);
    }
  }

  /** And a range of pages that goes. */
  lemma MappedLess(pages: map<nat, Pte>, mapped: set<nat>, top: nat, ns: set<nat>)
    requires MappedOk(pages, mapped, top)
    ensures MappedOk(pages - ns, mapped - ns, top)
  {
    forall n: nat ensures MappedAt(pages - ns, mapped - ns, top, n) {
      assert MappedAt(pages, mapped, top, n);
    }
  }

  lemma OnePage(g: nat)
    ensures g * PAGE % PAGE == 0 && g * PAGE / PAGE == g && Pmm.Run(g, 1) == {g}
  {
    forall n: nat ensures n in Pmm.Run(g, 1) <==> n == g {
      assert Pmm.InRun(n, g, 1) <==> n == g;
    }
  }

  class Process {
    const space: Space
    var heapTop: nat
    var regions: seq<Region>
    ghost var mapped: set<nat>   // the pages mapped by mmap

    ghost predicate Backed()
      reads space`pages, space.mmu, space.mmu.pmm, space.mmu.pmm.bitmap
    {
      space.Backed() && 0 !in space.Free()
    }

    ghost function Now(): Holding
      requires space.mmu.pmm.Valid()
      reads space`pages, space.mmu, space.mmu.pmm, space.mmu.pmm.bitmap
    {
      Holding(space.pages, space.Free())
    }

    ghost predicate Listed()
      reads this, space`pages
    {
      heapTop % PAGE == 0 && heapTop <= USER_TOP && Stacked(regions, heapTop) && MappedOk(space.pages, mapped, heapTop)
    }

    /** The pages of mmap are exactly those of the listed regions. A partial unmap ends this. */
    ghost predicate Exact()
      reads this
    {
      mapped == PagesOf(regions)
    }

    /** The whole state of the heap of a process: regions do not overlap, and each user page has a
        frame of its own that is marked used. */
    ghost predicate Valid()
      reads this, space`pages, space.mmu, space.mmu.pmm, space.mmu.pmm.bitmap
    {
      Backed() && Listed()
    }

    constructor (space: Space, top: nat)
      requires space.Backed() && 0 !in space.Free() && top % PAGE == 0 && top <= USER_TOP
      ensures Valid() && Exact() && this.space == space && regions == [] && heapTop == top && mapped == {}
    {
      this.space, heapTop, regions, mapped := space, top, [], {};
    }

    /** A fresh frame for one page. */
    method MapOne(va: nat) returns (r: Outcome<()>)
      requires Backed() && va < USER_TOP
      modifies space`pages, space.mmu`tables, space.mmu`labels, space.mmu.pmm, space.mmu.pmm.bitmap
      ensures r.Done? ==> Backed() && Uses(old(space.Shared()), space.Shared(), space.root)
      ensures r.Done? ==>
        && Vpn(va) in space.pages && space.pages[Vpn(va)].flags == USER_FLAGS && space.pages[Vpn(va)].frame in old(space.Free())
        && space.pages == Put(old(space.pages), Vpn(va), space.pages[Vpn(va)])
      ensures r.Panic? ==> space.mmu.pmm.Valid() && space.Free() == {}
    {
      ghost var free := space.Free();
      var phys := space.mmu.pmm.AllocPage();
      if phys.Panic? {
        return Panic;
      }
      assert space.Free() + {phys.value / PAGE} == free;
      r := MapFrame(va, phys.value);
    }

    /** A frame that was just taken is mapped. */
    method MapFrame(va: nat, phys: nat) returns (r: Outcome<()>)
      requires space.Valid() && 0 !in space.Free() && va < USER_TOP
      requires
        var g, tables := phys / PAGE, space.mmu.tables.Keys;
        && 0 < g < space.mmu.pmm.pageCount && g !in space.Free() && g !in tables
        && Owns(space.pages, space.Free() + {g}, tables, space.mmu.pmm.pageCount)
      modifies space`pages, space.mmu`tables, space.mmu`labels, space.mmu.pmm, space.mmu.pmm.bitmap
      ensures r.Done? ==> Backed() && Uses(old(space.Shared()), space.Shared(), space.root)
      ensures r.Done? ==> space.pages == Put(old(space.pages), Vpn(va), Pte(phys / PAGE, USER_FLAGS))
      ensures r.Panic? ==> space.mmu.pmm.Valid() && space.Free() == {}
    {
      ghost var e, free, tables, pages := Pte(phys / PAGE, USER_FLAGS), space.Free(), space.mmu.tables.Keys, space.pages;
      r := space.Map(va, phys, USER_FLAGS);
      if r.Done? {
        OwnsMore(pages, free + {e.frame}, tables, space.mmu.pmm.pageCount, Vpn(va), e, space.Free(), space.mmu.tables.Keys);
      }
    }

    /** The mapping loop. */
    method MapAll(base: nat, count: nat) returns (r: Outcome<()>)
      requires Backed() && base + count * PAGE <= USER_TOP
      modifies space`pages, space.mmu`tables, space.mmu`labels, space.mmu.pmm, space.mmu.pmm.bitmap
      ensures r.Done? ==> Backed() && Uses(old(space.Shared()), space.Shared(), space.root)
      ensures r.Done? ==> Grew(old(space.pages), space.pages, Pmm.Run(base / PAGE, count), old(space.Free()))
      ensures r.Panic? ==> space.mmu.pmm.Valid() && space.Free() == {}
    {
      var i := 0;
      ghost var h, k := Now(), space.Shared();
      GrewNone(space.pages, base / PAGE, space.Free());
      ElsewhereRefl(k.vm, space.root);
      while i < count
        invariant 0 <= i <= count && Backed() && Grew(h.pages, space.pages, Pmm.Run(base / PAGE, i), h.free)
        invariant Uses(k, space.Shared(), space.root)
      {
        r := MapNext(base, i, count, h, k);
        if r.Panic? {
          return;
        }
        i := i + 1;
      }
      r := Done(());
    }

    /** One turn of it. */
    method MapNext(base: nat, i: nat, ghost count: nat, ghost h: Holding, ghost k: Kernel) returns (r: Outcome<()>)
      requires Backed() && base + count * PAGE <= USER_TOP && i < count && h.free == k.free
      requires Grew(h.pages, space.pages, Pmm.Run(base / PAGE, i), h.free) && Uses(k, space.Shared(), space.root)
      modifies space`pages, space.mmu`tables, space.mmu`labels, space.mmu.pmm, space.mmu.pmm.bitmap
      ensures r.Done? ==> Backed() && Uses(k, space.Shared(), space.root)
      ensures r.Done? ==> Grew(h.pages, space.pages, Pmm.Run(base / PAGE, i + 1), h.free)
      ensures r.Panic? ==> space.mmu.pmm.Valid() && space.Free() == {}
    {
      ghost var k1, n, pages := space.Shared(), base / PAGE + i, space.pages;
      PageAt(base, i, count);
      r := MapOne(base + i * PAGE);
      if r.Done? {
        GrewOne(h.pages, pages, Pmm.Run(base / PAGE, i), h.free, n, space.pages[n]);
        UsesTrans(k, k1, space.Shared(), space.root);
      }
    }

    /** `sys_mmap` with address 0. */
    method Mmap(size: nat) returns (r: Outcome<nat>)
      requires Valid() && size < WORD_LIMIT && heapTop + PageCount(size) * PAGE <= USER_TOP
      modifies this, space`pages, space.mmu`tables, space.mmu`labels, space.mmu.pmm, space.mmu.pmm.bitmap
      ensures r.Done? ==> Valid() && r.value == old(heapTop) && heapTop == r.value + PageCount(size) * PAGE
      ensures r.Done? ==> regions == [Region(r.value, PageCount(size) * PAGE)] + old(regions)
      ensures r.Done? ==> mapped == old(mapped) + PagesIn(regions[0]) && PagesIn(regions[0]) !! old(mapped)
      ensures r.Done? ==> Grew(old(space.pages), space.pages, PagesIn(regions[0]), old(space.Free()))
      ensures r.Done? && old(Exact()) ==> Exact()
      ensures r.Done? ==> Uses(old(space.Shared()), space.Shared(), space.root)
      ensures r.Panic? ==> space.mmu.pmm.Valid() && space.Free() == {}
    {
      ghost var h := Now();
      var pages := (size + 4095) % WORD_LIMIT / PAGE;
      var vaddr := heapTop;
      var done := MapAll(vaddr, pages);
      if done.Panic? {
        return Panic;
      }
      EnlistStep(h.pages, space.pages, mapped, h.free, regions, heapTop, pages);
      Enlist(vaddr, pages);
      r := Done(vaddr);
    }

    /** The new region, at the head of the list. */
    method Enlist(vaddr: nat, pages: nat)
      modifies this
      ensures heapTop == vaddr + pages * PAGE && regions == [Region(vaddr, pages * PAGE)] + old(regions)
      ensures mapped == old(mapped) + PagesIn(regions[0])
    {
      heapTop := vaddr + pages * PAGE;
      regions := [Region(vaddr, pages * PAGE)] + regions;
      mapped := mapped + PagesIn(regions[0]);
    }

    /** The frame of a mapped page is given back and the page forgotten. */
    method UnmapOne(va: nat, phys: nat) returns (r: Outcome<()>)
      requires Backed() && va < USER_TOP && Vpn(va) in space.pages && phys == space.pages[Vpn(va)].frame * PAGE
      modifies space`pages, space.mmu`tables, space.mmu.pmm, space.mmu.pmm.bitmap
      ensures r.Done? && Backed() && Now() == Without(old(Now()), Vpn(va))
      ensures Keeps(old(space.Shared()), space.Shared(), space.root)
    {
      ghost var n, free, tables, limit := Vpn(va), space.Free(), space.mmu.tables.Keys, space.mmu.pmm.pageCount;
      UserVpn(va);
      assert FrameOk(space.pages, free, tables, limit, n);
      OwnsLess(space.pages, free, tables, limit, n);
      OnePage(space.pages[n].frame);
      r := space.mmu.pmm.FreePage(phys);
      r := space.Unmap(va);
    }

    /** The unmapping loop; pages that are not mapped are passed over. */
    method UnmapAll(base: nat, count: nat) returns (r: Outcome<()>)
      requires Backed() && base + count * PAGE <= USER_TOP
      modifies space`pages, space.mmu`tables, space.mmu.pmm, space.mmu.pmm.bitmap
      ensures r.Done? && Backed() && Keeps(old(space.Shared()), space.Shared(), space.root)
      ensures Released(old(Now()), base / PAGE, count, Now())
    {
      var i: nat := 0;
      ghost var h, k := Now(), space.Shared();
      ReleasedNone(h, base / PAGE);
      ElsewhereRefl(k.vm, space.root);
      r := Done(());
      while i < count
        invariant i <= count && r.Done? && Backed() && Released(h, base / PAGE, i, Now())
        invariant Keeps(k, space.Shared(), space.root)
      {
        r := UnmapNext(base, i, count, h, k);
        i := i + 1;
      }
    }

    /** One turn of it. */
    method UnmapNext(base: nat, i: nat, ghost count: nat, ghost h: Holding, ghost k: Kernel) returns (r: Outcome<()>)
      requires Backed() && base + count * PAGE <= USER_TOP && i < count
      requires Released(h, base / PAGE, i, Now()) && Keeps(k, space.Shared(), space.root)
      modifies space`pages, space.mmu`tables, space.mmu.pmm, space.mmu.pmm.bitmap
      ensures r.Done? && Backed() && Released(h, base / PAGE, i + 1, Now()) && Keeps(k, space.Shared(), space.root)
    {
      ghost var k1 := space.Shared();
      PageAt(base, i, count);
      ReleasedOne(h, base / PAGE, i, Now());
      r := UnmapMapped(base + i * PAGE);
      KeepsTrans(k, k1, space.Shared(), space.root);
    }

    method UnmapMapped(va: nat) returns (r: Outcome<()>)
      requires Backed() && va < USER_TOP
      modifies space`pages, space.mmu`tables, space.mmu.pmm, space.mmu.pmm.bitmap
      ensures r.Done? && Backed() && Now() == Without(old(Now()), Vpn(va))
      ensures Keeps(old(space.Shared()), space.Shared(), space.root)
    {
      var page := space.Get(va);
      if page.None? {
        ElsewhereRefl(space.mmu.State(), space.root);
        return Done(());
      }
      r := UnmapOne(va, page.value.0);
    }

    /** `sys_munmap`: never a double free, and the frame of every page that was mapped comes back.
        Unmapping a whole region leaves the list exact. */
    method Munmap(addr: nat, size: nat) returns (r: Outcome<()>)
      requires Valid() && size < WORD_LIMIT && addr + PageCount(size) * PAGE <= USER_TOP
      modifies this, space`pages, space.mmu`tables, space.mmu.pmm, space.mmu.pmm.bitmap
      ensures r.Done? && Valid() && heapTop == old(heapTop) && regions == Dropped(old(regions), addr)
      ensures Released(old(Now()), addr / PAGE, PageCount(size), Now())
      ensures mapped == old(mapped) - Pmm.Run(addr / PAGE, PageCount(size))
      ensures old(Exact()) && IsWhole(old(regions), addr, size) ==> Exact()
      ensures Keeps(old(space.Shared()), space.Shared(), space.root)
    {
      var pages := (size + 4095) % WORD_LIMIT / PAGE;
      DroppedWhole(regions, heapTop, addr, size);
      MappedLess(space.pages, mapped, heapTop, Pmm.Run(addr / PAGE, pages));
      DropRegion(addr);
      mapped := mapped - Pmm.Run(addr / PAGE, pages);
      r := UnmapAll(addr, pages);
    }

    /** The search for the region. */
    method DropRegion(addr: nat)
      modifies this`regions
      ensures regions == Dropped(old(regions), addr)
    {
      var k := 0;
      while k < |regions|
        invariant 0 <= k <= |regions| && FindRegion(regions, addr) == FindRegion(regions, addr, k)
      {
        if regions[k].base == addr {
          regions := regions[..k] + regions[k + 1..];
          return;
        }
        k := k + 1;
      }
    }
  }
}
