/** Several processes on one page allocator, one set of page tables and one physical memory:
    `proc_create` of src/multi/process.c and the calls of src/userspace/syscall.c that map, unmap
    and copy. No call in one process touches the memory another one sees. */
module Processes {
  import opened Machine
  import opened Outcomes
  import opened ByteMemory
  import opened PageTables
  import opened VmSteps
  import opened Spaces
  import opened Regions
  import Pmm
  import Vmm
  import UserCopy
  import ElfLoader

  type Pages = map<nat, Pte>

  // ----- frames of two spaces -----

  ghost predicate FramesApart(p: Pages, q: Pages, m: nat, n: nat) {
    m in p && n in q && m < HALF && n < HALF ==> p[m].frame != q[n].frame
  }

  /** No frame is behind user pages of both spaces. */
  ghost predicate Disjoint(p: Pages, q: Pages) {
    forall m: nat, n: nat :: FramesApart(p, q, m, n)
  }

  lemma DisjointSym(p: Pages, q: Pages)
    requires Disjoint(p, q)
    ensures Disjoint(q, p)
  {
    forall m: nat, n: nat ensures FramesApart(q, p, m, n) {
      assert FramesApart(p, q, n, m);
    }
  }

  lemma OwnsAvoids(pages: Pages, free: set<nat>, tables: set<nat>, limit: nat)
    requires Owns(pages, free, tables, limit)
    ensures Avoids(pages, free)
  {
    forall n: nat ensures PageAvoids(pages, free, n) {
      assert FrameOk(pages, free, tables, limit, n);
    }
  }

  /** Pages that are new on free frames share none with a space that has no free frame. */
  lemma DisjointStays(p: Pages, p': Pages, q: Pages, free: set<nat>)
    requires Disjoint(p, q) && Avoids(q, free) && forall n: nat :: PageFrom(p, p', free, n)
    ensures Disjoint(p', q)
  {
    forall m: nat, n: nat ensures FramesApart(p', q, m, n) {
      assert FramesApart(p, q, m, n) && PageFrom(p, p', free, m) && PageAvoids(q, free, n);
    }
  }

  lemma GrewFrom(p: Pages, p': Pages, ns: set<nat>, free: set<nat>)
    requires Grew(p, p', ns, free)
    ensures forall n: nat :: PageFrom(p, p', free, n)
  {
    forall n: nat ensures PageFrom(p, p', free, n) {
      assert GrewAt(p, p', ns, free, n);
    }
  }

  /** The frames of user pages of one space are behind no user page of the other. */
  lemma FramesAvoid(p: Pages, q: Pages, b: nat, count: nat)
    requires Disjoint(p, q) && b + count <= HALF
    ensures Avoids(q, FramesOf(p, b, count))
  {
    forall n: nat ensures PageAvoids(q, FramesOf(p, b, count), n) {
      if n in q && n < HALF {
        FramesAre(p, b, count, q[n].frame);
        forall m | Pmm.InRun(m, b, count) && m in p ensures p[m].frame != q[n].frame {
          assert FramesApart(p, q, m, n);
        }
      }
    }
  }

  lemma UserRange(addr: nat, count: nat)
    requires addr + count * PAGE <= USER_TOP
    ensures addr / PAGE + count <= HALF
  {}

  /** The user may read and write every byte of a region that was just mapped. */
  lemma RegionReachable(p: Pages, p': Pages, region: Region, free: set<nat>, va: nat, write: bool)
    requires Grew(p, p', PagesIn(region), free) && region.base % PAGE == 0 && region.size % PAGE == 0
    requires region.base <= va < region.base + region.size <= USER_TOP
    ensures UserCopy.Reach(p', va, write).Some?
  {
    UserVpn(va);
    var n := va / PAGE;
    assert region.base / PAGE <= n < region.base / PAGE + region.size / PAGE;
    assert Pmm.InRun(n, region.base / PAGE, region.size / PAGE) && n in PagesIn(region);
    assert GrewAt(p, p', PagesIn(region), free, n);
  }

  // ----- memory seen through a space -----

  ghost predicate SightKept(pages: Pages, m: Mem, m': Mem, va: nat) {
    var a := UserCopy.Reach(pages, va, false);
    a.Some? ==> Get(m', a.value) == Get(m, a.value)
  }

  /** Every byte the user can reach is as it was. */
  ghost predicate Unseen(pages: Pages, m: Mem, m': Mem) {
    forall va: nat :: SightKept(pages, m, m', va)
  }

  /** Then every read gives what it gave. */
  lemma {:induction false} ReadsAgree(pages: Pages, m: Mem, m': Mem, va: nat, n: nat)
    requires Unseen(pages, m, m')
    ensures UserCopy.ReadAll(pages, m', va, n) == UserCopy.ReadAll(pages, m, va, n)
    decreases n
  {
    if n > 0 {
      assert SightKept(pages, m, m', va);
      ReadsAgree(pages, m, m', va + 1, n - 1);
    }
  }

  lemma FrameOf(pages: Pages, va: nat, write: bool)
    requires UserCopy.Reach(pages, va, write).Some?
    ensures Vpn(va) in pages && Vpn(va) < HALF && UserCopy.Reach(pages, va, write).value / PAGE == pages[Vpn(va)].frame
  {
    UserVpn(va);
  }

  /** A copy into one space is not seen in the other. */
  lemma CopyUnseen(p: Pages, q: Pages, m: Mem, dst: nat, src: seq<byte>)
    requires Disjoint(p, q)
    ensures Unseen(q, m, UserCopy.WriteAll(p, m, dst, src).0)
  {
    forall va: nat ensures SightKept(q, m, UserCopy.WriteAll(p, m, dst, src).0, va) {
      var a := UserCopy.Reach(q, va, false);
      if a.Some? {
        FrameOf(q, va, false);
        forall w: nat | dst <= w < dst + |src| ensures UserCopy.Reach(p, w, true) != a {
          if UserCopy.Reach(p, w, true).Some? {
            FrameOf(p, w, true);
            assert FramesApart(p, q, Vpn(w), Vpn(va));
          }
        }
        UserCopy.WriteElsewhere(p, m, dst, src, a.value);
      }
    }
  }

  /** Nor is what is written on free frames. */
  lemma FreeUnseen(q: Pages, free: set<nat>, m: Mem, m': Mem)
    requires Avoids(q, free) && forall x: nat :: ElfLoader.ByteKept(m, m', free, x)
    ensures Unseen(q, m, m')
  {
    forall va: nat ensures SightKept(q, m, m', va) {
      var a := UserCopy.Reach(q, va, false);
      if a.Some? {
        FrameOf(q, va, false);
        assert PageAvoids(q, free, Vpn(va)) && ElfLoader.ByteKept(m, m', free, a.value);
      }
    }
  }

  // ----- the processes -----

  /** Pages and written bytes of the space are on frames that were free. */
  ghost predicate OnFree(space: Space, k: Kernel, m: Mem)
    reads space`pages, space.ram, space.mmu, space.mmu.pmm, space.mmu.pmm.bitmap
  {
    && space.Backed() && space.root in k.free && Uses(k, space.Shared(), space.root)
    && (forall n: nat :: PageFrom(map[], UserPart(space.pages), k.free, n))
    && (forall x: nat :: ElfLoader.ByteKept(m, space.ram.bytes, k.free, x))
  }

  ghost function UserPart(pages: Pages): Pages {
    map n | n in pages && n < HALF :: pages[n]
  }

  /** The load segments of the file are in the memory of the space. */
  ghost predicate InPlace(space: Space, image: ElfLoader.Image, loaded: map<nat, ElfLoader.PageImage>)
    reads space`pages, space.ram, space.mmu, space.mmu.pmm, space.mmu.pmm.bitmap
  {
    && space.mmu.pmm.Valid() && ElfLoader.AllLoaded(space.pages, space.ram.bytes, space.Free(), loaded)
    && ElfLoader.SegmentsIn(loaded, image, |image.segments|)
  }

  /** A space made and loaded. */
  method LoadSpace(mmu: Vmm.Mmu, ram: Ram, image: ElfLoader.Image) 
    returns (r: Outcome<(Space, nat)>, ghost loaded: map<nat, ElfLoader.PageImage>)
    requires mmu.Valid() && 0 !in mmu.pmm.Free() && ElfLoader.Loadable(image)
    modifies ram, mmu`tables, mmu`labels, mmu.pmm, mmu.pmm.bitmap
    ensures r.Panic? ==> mmu.pmm.Valid() && mmu.pmm.Free() == {}
    ensures r.Done? ==>
      var (space, entry) := r.value;
      && fresh(space) && space.mmu == mmu && space.ram == ram
      && OnFree(space, Kernel(old(mmu.State()), old(mmu.pmm.Free())), old(ram.bytes))
      && (entry == 0 <==> ElfLoader.BadHeader(image) || image.entry == 0)
      && (entry != 0 ==> InPlace(space, image, loaded))
  {
    ghost var k := Kernel(mmu.State(), mmu.pmm.Free());
    var space := CreateUserSpace(mmu, ram);
    if space.Panic? {
      return Panic, map[];
    }
    var entry;
    entry, loaded := LoadInto(space.value, image, k);
    r := if entry.Panic? then Panic else Done((space.value, entry.value));
  }

  /** The file goes into a space without user pages. */
  method LoadInto(space: Space, image: ElfLoader.Image, ghost k: Kernel)
    returns (entry: Outcome<nat>, ghost loaded: map<nat, ElfLoader.PageImage>)
    requires space.Backed() && 0 !in space.Free() && ElfLoader.Loadable(image) && (forall n :: n in space.pages ==> n >= HALF)
    requires space.root in k.free && Uses(k, space.Shared(), space.root)
    modifies space`pages, space.ram, space.mmu`tables, space.mmu`labels, space.mmu.pmm, space.mmu.pmm.bitmap
    ensures entry.Panic? ==> space.mmu.pmm.Valid() && space.Free() == {}
    ensures entry.Done? ==> OnFree(space, k, old(space.ram.bytes))
    ensures entry.Done? ==> (entry.value == 0 <==> ElfLoader.BadHeader(image) || image.entry == 0)
    ensures entry.Done? && entry.value != 0 ==> InPlace(space, image, loaded)
  {
    ghost var first := ElfLoader.At(space);
    entry, loaded := ElfLoader.ElfLoad(space, image);
    if entry.Done? {
      LoadedOnFree(k, first, ElfLoader.At(space), space.root, space.mmu.pmm.pageCount);
    }
  }

  lemma LoadedOnFree(k: Kernel, a: ElfLoader.Moment, b: ElfLoader.Moment, root: nat, limit: nat)
    requires Uses(k, a.kernel, root) && ElfLoader.Loads(a, b, root, limit) && forall n :: n in a.pages ==> n >= HALF
    ensures Uses(k, b.kernel, root) && forall n: nat :: PageFrom(map[], UserPart(b.pages), k.free, n)
    ensures forall x: nat :: ElfLoader.ByteKept(a.mem, b.mem, k.free, x)
  {
    UsesTrans(k, a.kernel, b.kernel, root);
    forall n: nat ensures PageFrom(map[], UserPart(b.pages), k.free, n) {
      assert PageFrom(a.pages, b.pages, a.kernel.free, n);
    }
    forall x: nat ensures ElfLoader.ByteKept(a.mem, b.mem, k.free, x) {
      assert ElfLoader.ByteKept(a.mem, b.mem, a.kernel.free, x);
    }
  }

  /** A space on free frames and one that stood before it have nothing in common. */
  lemma NewSpaceApart(space: Space, k: Kernel, m: Mem, limit: nat, q: nat, pages: Pages)
    requires space.mmu.Valid() && OnFree(space, k, m) && WellFormed(k.vm) && k.vm.tables.Keys !! k.free && Stands(k, limit, q, pages)
    ensures q != space.root && Stands(space.Shared(), limit, q, pages) && Unseen(pages, m, space.ram.bytes)
    ensures Disjoint(space.pages, pages) && Disjoint(pages, space.pages)
  {
    OwnsAvoids(pages, k.free, k.vm.tables.Keys, limit);
    StandsElsewhere(k, space.Shared(), limit, space.root, q, pages, {});
    FreeUnseen(pages, k.free, m, space.ram.bytes);
    forall a: nat, b: nat ensures FramesApart(space.pages, pages, a, b) {
      assert PageFrom(map[], UserPart(space.pages), k.free, a) && PageAvoids(pages, k.free, b);
    }
    DisjointSym(space.pages, pages);
  }

  /** A process of this machine, as it stands in what all of them share. */
  ghost predicate Fits(mmu: Vmm.Mmu, ram: Ram, k: Kernel, p: Process)
    reads p, p.space
  {
    && p.space.mmu == mmu && p.space.ram == ram && p.Listed()
    && Stands(k, mmu.pmm.pageCount, p.space.root, p.space.pages)
  }

  /** Two processes share no object, no top-level table and no frame. */
  ghost predicate Separate(p: Process, q: Process)
    reads p.space, q.space
  {
    p != q && p.space != q.space && p.space.root != q.space.root && Disjoint(p.space.pages, q.space.pages)
  }

  /** The two were separate when the first had the given pages. */
  ghost predicate Was(p: Process, before: Pages, q: Process)
    reads q.space
  {
    p != q && p.space != q.space && p.space.root != q.space.root && Disjoint(before, q.space.pages)
  }

  /** Work in space `root` that no other space saw: its pages are old or on frames that were free, and
      at most the frames of some of its user pages were given back. */
  ghost predicate Worked(k: Kernel, k': Kernel, root: nat, before: Pages, after: Pages, b: nat, count: nat) {
    match k'
    case Kernel(vm', free') =>
      && Elsewhere(k.vm, vm', root) && (forall n: nat :: PageFrom(before, after, k.free, n))
      && free' <= k.free + FramesOf(before, b, count) && b + count <= HALF
      && vm'.tables.Keys <= k.vm.tables.Keys + k.free
  }

  /** `sys_mmap` of one process, as work in its space. */
  method MmapOf(p: Process, size: nat) returns (r: Outcome<nat>)
    requires p.Valid() && size < WORD_LIMIT && p.heapTop + PageCount(size) * PAGE <= USER_TOP
    modifies p, p.space`pages, p.space.mmu`tables, p.space.mmu`labels, p.space.mmu.pmm, p.space.mmu.pmm.bitmap
    ensures r.Done? ==> p.Valid() && r.value == old(p.heapTop) && p.heapTop == r.value + PageCount(size) * PAGE
    ensures r.Done? ==> p.regions == [Region(r.value, PageCount(size) * PAGE)] + old(p.regions)
    ensures r.Done? ==> Grew(old(p.space.pages), p.space.pages, PagesIn(p.regions[0]), old(p.space.Free()))
    ensures r.Done? ==> Fits(p.space.mmu, p.space.ram, p.space.Shared(), p)
    ensures r.Done? ==> Worked(old(p.space.Shared()), p.space.Shared(), p.space.root, old(p.space.pages), p.space.pages, 0, 0)
    ensures r.Panic? ==> p.space.mmu.pmm.Valid() && p.space.Free() == {}
  {
    ghost var k, before := p.space.Shared(), p.space.pages;
    r := p.Mmap(size);
    if r.Done? {
      p.space.BackedIff();
      GrewFrom(before, p.space.pages, PagesIn(p.regions[0]), k.free);
    }
  }

  /** And `sys_munmap`. */
  method MunmapOf(p: Process, addr: nat, size: nat) returns (r: Outcome<()>)
    requires p.Valid() && size < WORD_LIMIT && addr + PageCount(size) * PAGE <= USER_TOP
    modifies p, p.space`pages, p.space.mmu`tables, p.space.mmu.pmm, p.space.mmu.pmm.bitmap
    ensures r.Done? && p.Valid() && p.regions == Dropped(old(p.regions), addr)
    ensures Released(old(p.Now()), addr / PAGE, PageCount(size), p.Now())
    ensures Fits(p.space.mmu, p.space.ram, p.space.Shared(), p)
    ensures Worked(old(p.space.Shared()), p.space.Shared(), p.space.root, old(p.space.pages), p.space.pages, addr / PAGE, PageCount(size))
  {
    UserRange(addr, PageCount(size));
    r := p.Munmap(addr, size);
    p.space.BackedIff();
  }

  class ProcessTable {
    const mmu: Vmm.Mmu
    const ram: Ram
    var procs: seq<Process>

    ghost function Shared(): Kernel
      requires mmu.pmm.Valid()
      reads mmu, mmu.pmm, mmu.pmm.bitmap
    {
      Kernel(mmu.State(), mmu.pmm.Free())
    }

    ghost predicate Valid()
      reads this, procs, set p | p in procs :: p.space, mmu, mmu.pmm, mmu.pmm.bitmap
    {
      && mmu.Valid() && 0 !in mmu.pmm.Free()
      && (forall i :: 0 <= i < |procs| ==> Fits(mmu, ram, Shared(), procs[i]))
      && (forall i, j :: 0 <= i < |procs| && 0 <= j < |procs| && i != j ==> Separate(procs[i], procs[j]))
    }

    constructor (mmu: Vmm.Mmu, ram: Ram)
      requires mmu.Valid() && 0 !in mmu.pmm.Free()
      ensures Valid() && this.mmu == mmu && this.ram == ram && procs == []
    {
      this.mmu, this.ram, procs := mmu, ram, [];
    }

    lemma ProcessValid(i: nat)
      requires Valid() && i < |procs|
      ensures procs[i].Valid()
    {
      procs[i].space.BackedIff();
    }

    /** No frame is behind two user pages, of one process or of two. */
    lemma NoSharedFrame(i: nat, m: nat, j: nat, n: nat)
      requires Valid() && i < |procs| && j < |procs| && m < HALF && n < HALF
      requires m in procs[i].space.pages && n in procs[j].space.pages
      ensures procs[i].space.pages[m].frame == procs[j].space.pages[n].frame <==> i == j && m == n
    {
      if i == j {
        assert FramesDiffer(procs[i].space.pages, m, n);
      } else {
        assert Separate(procs[i], procs[j]) && FramesApart(procs[i].space.pages, procs[j].space.pages, m, n);
      }
    }

    /** After a call in process `i` that gave back at most the frames of some of its pages, the table
        is valid again. */
    lemma Restored(i: nat, k: Kernel, before: Pages, b: nat, count: nat)
      requires mmu.Valid() && 0 !in mmu.pmm.Free() && i < |procs| && Fits(mmu, ram, Shared(), procs[i])
      requires forall j :: 0 <= j < |procs| && j != i ==> Fits(mmu, ram, k, procs[j])
      requires forall j, l :: 0 <= j < |procs| && 0 <= l < |procs| && j != l && j != i && l != i ==> Separate(procs[j], procs[l])
      requires forall j :: 0 <= j < |procs| && j != i ==> Was(procs[i], before, procs[j])
      requires Worked(k, Shared(), procs[i].space.root, before, procs[i].space.pages, b, count)
      ensures Valid()
    {
      forall j | 0 <= j < |procs| && j != i
        ensures Fits(mmu, ram, Shared(), procs[j]) && Separate(procs[i], procs[j]) && Separate(procs[j], procs[i])
      {
        var q := procs[j].space.pages;
        assert Fits(mmu, ram, k, procs[j]) && Was(procs[i], before, procs[j]);
        FramesAvoid(before, q, b, count);
        StandsElsewhere(k, Shared(), mmu.pmm.pageCount, procs[i].space.root, procs[j].space.root, q, FramesOf(before, b, count));
        OwnsAvoids(q, k.free, k.vm.tables.Keys, mmu.pmm.pageCount);
        DisjointStays(before, procs[i].space.pages, q, k.free);
        DisjointSym(procs[i].space.pages, q);
      }
    }

    /** `sys_mmap` in process `i`. */
    method Mmap(i: nat, size: nat) returns (r: Outcome<nat>)
      requires Valid() && i < |procs| && size < WORD_LIMIT && procs[i].heapTop + PageCount(size) * PAGE <= USER_TOP
      modifies procs[i], procs[i].space`pages, mmu`tables, mmu`labels, mmu.pmm, mmu.pmm.bitmap
      ensures r.Done? ==> Valid() && r.value == old(procs[i].heapTop) && procs[i].heapTop == r.value + PageCount(size) * PAGE
      ensures r.Done? ==> procs[i].regions == [Region(r.value, PageCount(size) * PAGE)] + old(procs[i].regions)
      ensures r.Done? ==>
        Grew(old(procs[i].space.pages), procs[i].space.pages, PagesIn(procs[i].regions[0]), old(mmu.pmm.Free()))
      ensures r.Panic? ==> mmu.pmm.Valid() && mmu.pmm.Free() == {}
    {
      ghost var k, p := Shared(), procs[i].space.pages;
      ProcessValid(i);
      r := MmapOf(procs[i], size);
      if r.Done? {
        Restored(i, k, p, 0, 0);
      }
    }

    /** `sys_munmap` in process `i`. */
    method Munmap(i: nat, addr: nat, size: nat) returns (r: Outcome<()>)
      requires Valid() && i < |procs| && size < WORD_LIMIT && addr + PageCount(size) * PAGE <= USER_TOP
      modifies procs[i], procs[i].space`pages, mmu`tables, mmu.pmm, mmu.pmm.bitmap
      ensures r.Done? && Valid() && procs[i].regions == Dropped(old(procs[i].regions), addr)
      ensures Released(old(procs[i].Now()), addr / PAGE, PageCount(size), procs[i].Now())
    {
      ghost var k, p := Shared(), procs[i].space.pages;
      ProcessValid(i);
      r := MunmapOf(procs[i], addr, size);
      Restored(i, k, p, addr / PAGE, PageCount(size));
    }

    /** A copy to process `i`: no other process sees it. */
    method CopyTo(i: nat, dst: nat, src: seq<byte>) returns (ok: bool)
      requires Valid() && i < |procs|
      modifies ram
      ensures Valid() && (ram.bytes, ok) == UserCopy.WriteAll(procs[i].space.pages, old(ram.bytes), dst, src)
      ensures forall j :: 0 <= j < |procs| && j != i ==> Unseen(procs[j].space.pages, old(ram.bytes), ram.bytes)
    {
      ProcessValid(i);
      ok := UserCopy.CopyToUser(procs[i].space, dst, src);
      forall j | 0 <= j < |procs| && j != i ensures Unseen(procs[j].space.pages, old(ram.bytes), ram.bytes) {
        assert Separate(procs[i], procs[j]);
        CopyUnseen(procs[i].space.pages, procs[j].space.pages, old(ram.bytes), dst, src);
      }
    }

    /** The address space of `proc_create`, and the process: false for a file that is refused. No
        process there was sees any of it. */
    method Create(image: ElfLoader.Image) returns (r: Outcome<bool>, ghost loaded: map<nat, ElfLoader.PageImage>)
      requires Valid() && ElfLoader.Loadable(image)
      modifies this, ram, mmu`tables, mmu`labels, mmu.pmm, mmu.pmm.bitmap
      ensures r.Panic? ==> mmu.pmm.Valid() && mmu.pmm.Free() == {}
      ensures r.Done? ==> Valid() && (r.value <==> !ElfLoader.BadHeader(image) && image.entry != 0)
      ensures r == Done(false) ==> procs == old(procs)
      ensures r == Done(true) ==> |procs| == |old(procs)| + 1 && procs[1..] == old(procs) && fresh(procs[0]) && fresh(procs[0].space)
      ensures r == Done(true) ==> InPlace(procs[0].space, image, loaded) && procs[0].regions == [] && procs[0].heapTop == 0x1000_0000
      ensures r.Done? ==> forall p :: p in old(procs) ==> Unseen(p.space.pages, old(ram.bytes), ram.bytes)
    {
      ghost var k, m := Shared(), ram.bytes;
      var made;
      made, loaded := LoadSpace(mmu, ram, image);
      if made.Panic? {
        return Panic, loaded;
      }
      var (space, entry) := made.value;
      OthersStay(space, k, m);
      if entry == 0 {
        return Done(false), loaded;
      }
      Enroll(space);
      r := Done(true);
    }

    /** A new space on free frames disturbs no process. */
    lemma OthersStay(space: Space, k: Kernel, m: Mem)
      requires mmu.Valid() && 0 !in mmu.pmm.Free() && space.mmu == mmu && space.ram == ram && OnFree(space, k, m)
      requires WellFormed(k.vm) && k.vm.tables.Keys !! k.free
      requires forall i :: 0 <= i < |procs| ==> Fits(mmu, ram, k, procs[i])
      requires forall i, j :: 0 <= i < |procs| && 0 <= j < |procs| && i != j ==> Separate(procs[i], procs[j])
      ensures Valid()
      ensures forall i :: 0 <= i < |procs| ==>
        && space.root != procs[i].space.root && Unseen(procs[i].space.pages, m, ram.bytes)
        && Disjoint(space.pages, procs[i].space.pages) && Disjoint(procs[i].space.pages, space.pages)
    {
      forall i | 0 <= i < |procs|
        ensures Fits(mmu, ram, Shared(), procs[i]) && space.root != procs[i].space.root && Unseen(procs[i].space.pages, m, ram.bytes)
        ensures Disjoint(space.pages, procs[i].space.pages) && Disjoint(procs[i].space.pages, space.pages)
      {
        assert Fits(mmu, ram, k, procs[i]);
        NewSpaceApart(space, k, m, mmu.pmm.pageCount, procs[i].space.root, procs[i].space.pages);
      }
    }

    /** The process is put at the head of the list. */
    method Enroll(space: Space)
      requires Valid() && space.mmu == mmu && space.ram == ram && space.Backed()
      requires forall i :: 0 <= i < |procs| ==>
        && space != procs[i].space && space.root != procs[i].space.root
        && Disjoint(space.pages, procs[i].space.pages) && Disjoint(procs[i].space.pages, space.pages)
      modifies this
      ensures Valid() && |procs| == |old(procs)| + 1 && procs[1..] == old(procs) && fresh(procs[0]) && procs[0].space == space
      ensures procs[0].regions == [] && procs[0].heapTop == HEAP_BASE
    {
      var p := new Process(space, HEAP_BASE);
      space.BackedIff();
      procs := [p] + procs;
    }
  }
}
