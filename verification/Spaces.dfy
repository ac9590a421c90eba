/** One address space with the physical memory behind it: what the consumers of src/mm/vmm.c use.
    Physical memory is reached through the direct map, which is the identity here; page tables
    are kept apart from it, as frames of their own. */
module Spaces {
  import opened Machine
  import opened Outcomes
  import opened ByteMemory
  import opened PageTables
  import opened TableProofs
  import opened VmSteps
  import Vmm

  /** A block of bytes written from an address up. */
  function Overwrite(m: Mem, a: nat, bytes: seq<byte>): Mem
    decreases |bytes|
  {
    if bytes == [] then m else Overwrite(m[a := bytes[0]], a + 1, bytes[1..])
  }

  lemma {:induction false} OverwriteAt(m: Mem, a: nat, bytes: seq<byte>, k: nat)
    ensures Get(Overwrite(m, a, bytes), k) == if a <= k < a + |bytes| then bytes[k - a] else Get(m, k)
    decreases |bytes|
  {
    if bytes != [] {
      OverwriteAt(m[a := bytes[0]], a + 1, bytes[1..], k);
    }
  }

  /** No huge page on the way to any user address, and no table that limits the user. `VmRuns.CreatedStaysOpen` gives this for every
      space the kernel makes. */
  ghost predicate UserOpen(t: Tables, root: nat) {
    forall v: nat :: OpenAt(t, root, v)
  }

  ghost predicate OpenAt(t: Tables, root: nat, v: nat) {
    v < USER_TOP ==> Walkable(t, root, v, 4) && Passes(t, root, v, 4, true)
  }

  lemma UserVpn(v: nat)
    requires v < USER_TOP
    ensures Vpn(v) < HALF && Vpn(v) == v / PAGE
  {}

  /** The user's addresses are exactly the lower half. */
  lemma UserTopIs()
    ensures USER_TOP == HALF * PAGE == 0x8000_0000_0000
  {}

  /** The map `pages` says what the tables translate, page by page. */
  ghost predicate Shows(t: Tables, root: nat, pages: map<nat, Pte>) {
    forall n: nat :: ShowsPage(t, root, pages, n)
  }

  ghost predicate ShowsPage(t: Tables, root: nat, pages: map<nat, Pte>, n: nat) {
    && (n in pages <==> n < VPN_COUNT && LookupPage(t, root, n).Some?)
    && (n in pages ==> pages[n] == LookupPage(t, root, n).value)
  }

  lemma ShowsView(t: Tables, root: nat)
    ensures Shows(t, root, View(t, root))
  {
    forall n: nat ensures ShowsPage(t, root, View(t, root), n) {}
  }

  lemma ShownOnce(t: Tables, root: nat, pages: map<nat, Pte>)
    requires Shows(t, root, pages)
    ensures pages == View(t, root)
  {
    forall n: nat ensures n in pages <==> n in View(t, root) {
      assert ShowsPage(t, root, pages, n);
    }
    forall n | n in pages ensures pages[n] == View(t, root)[n] {
      assert ShowsPage(t, root, pages, n);
    }
  }

  /** A write to the tables is one update of the map. */
  lemma ShowsPut(s: Vm, s': Vm, root: nat, virt: nat, e: Pte, pages: map<nat, Pte>)
    requires Writes(s, s', root, virt, e) && UserOpen(s.tables, root) && Shows(s.tables, root, pages)
    ensures IsRoot(s'.labels, root) && UserOpen(s'.tables, root) && Shows(s'.tables, root, Put(pages, Vpn(virt), e))
  {
    assert WrittenView(s, s', root, virt, e, root);
    ShownOnce(s.tables, root, pages);
    ShowsView(s'.tables, root);
    forall v: nat ensures OpenAt(s'.tables, root, v) {
      assert OpenAt(s.tables, root, v) && SpaceWalkable(s, s', root, v);
    }
  }

  /** A write to a user address touches no other space. */
  lemma OwnWrite(s: Vm, s': Vm, root: nat, virt: nat, e: Pte)
    requires WellFormed(s) && Writes(s, s', root, virt, e) && virt < USER_TOP
    ensures Elsewhere(s, s', root)
  {
    UserVpn(virt);
    PrivateWrite(s, s', root, virt, e);
  }

  lemma FreshOpen(t: Tables, n: nat)
    requires n in t && EmptyLower(t[n])
    ensures UserOpen(t, n)
  {
    forall v: nat ensures OpenAt(t, n, v) {
      if v < USER_TOP {
        UserVpn(v);
        EmptyLowerOpen(t, n, v);
      }
    }
  }

  // ----- frames -----

  /** A user page has a frame that is in use and holds no table. */
  ghost predicate FrameOk(pages: map<nat, Pte>, free: set<nat>, tables: set<nat>, limit: nat, n: nat) {
    n in pages && n < HALF ==> pages[n].frame !in free && pages[n].frame !in tables && 0 < pages[n].frame < limit
  }

  ghost predicate FramesDiffer(pages: map<nat, Pte>, m: nat, n: nat) {
    m in pages && n in pages && m < HALF && n < HALF && m != n ==> pages[m].frame != pages[n].frame
  }

  /** Every user page has a frame of its own. */
  ghost predicate Owns(pages: map<nat, Pte>, free: set<nat>, tables: set<nat>, limit: nat) {
    && (forall n: nat :: FrameOk(pages, free, tables, limit, n))
    && (forall m: nat, n: nat :: FramesDiffer(pages, m, n))
  }

  /** One more page: its frame leaves the free ones, and so may some frames for tables. */
  lemma OwnsMore(pages: map<nat, Pte>, free: set<nat>, tables: set<nat>, limit: nat, n: nat, e: Pte, free': set<nat>, tables': set<nat>)
    requires Owns(pages, free, tables, limit) && Present(e) && e.frame in free && e.frame !in tables && 0 < e.frame < limit
    requires free' <= free - {e.frame} && tables' <= tables + (free - {e.frame})
    ensures Owns(Put(pages, n, e), free', tables', limit)
  {
    var pages' := Put(pages, n, e);
    forall k: nat ensures FrameOk(pages', free', tables', limit, k) {
      assert FrameOk(pages, free, tables, limit, k);
    }
    forall k: nat, l: nat ensures FramesDiffer(pages', k, l) {
      assert FramesDiffer(pages, k, l);
      assert FrameOk(pages, free, tables, limit, k) && FrameOk(pages, free, tables, limit, l);
    }
  }

  /** One page less: its frame is free again. */
  lemma OwnsLess(pages: map<nat, Pte>, free: set<nat>, tables: set<nat>, limit: nat, n: nat)
    requires Owns(pages, free, tables, limit) && n in pages && n < HALF
    ensures Owns(pages - {n}, free + {pages[n].frame}, tables, limit)
  {
    var g := pages[n].frame;
    forall k: nat ensures FrameOk(pages - {n}, free + {g}, tables, limit, k) {
      assert FrameOk(pages, free, tables, limit, k) && FramesDiffer(pages, k, n);
    }
    forall k: nat, l: nat ensures FramesDiffer(pages - {n}, k, l) {
      assert FramesDiffer(pages, k, l);
    }
  }

  // ----- what spaces share -----

  /** The tables of all spaces, and the frames no one has. */
  datatype Kernel = Kernel(vm: Vm, free: set<nat>)

  /** Work in space `root` that only took frames: no other space saw it, and new tables are on
      frames that were free. */
  ghost predicate Uses(k: Kernel, k': Kernel, root: nat) {
    match k'
    case Kernel(vm', free') =>
      Elsewhere(k.vm, vm', root) && free' <= k.free && vm'.tables.Keys <= k.vm.tables.Keys + k.free
  }

  lemma UsesTrans(a: Kernel, b: Kernel, c: Kernel, root: nat)
    requires Uses(a, b, root) && Uses(b, c, root)
    ensures Uses(a, c, root)
  {
    ElsewhereTrans(a.vm, b.vm, c.vm, root);
  }

  /** A space with its user pages, seen from what all spaces share. */
  ghost predicate Stands(k: Kernel, limit: nat, root: nat, pages: map<nat, Pte>) {
    && IsRoot(k.vm.labels, root) && UserOpen(k.vm.tables, root) && Shows(k.vm.tables, root, pages)
    && Owns(pages, k.free, k.vm.tables.Keys, limit)
  }

  /** None of the frames is behind a user page. */
  ghost predicate Avoids(pages: map<nat, Pte>, frames: set<nat>) {
    forall n: nat :: PageAvoids(pages, frames, n)
  }

  ghost predicate PageAvoids(pages: map<nat, Pte>, frames: set<nat>, n: nat) {
    n in pages && n < HALF ==> pages[n].frame !in frames
  }

  /** A space stands whatever is done in another one, as long as none of its frames is given back. */
  lemma StandsElsewhere(k: Kernel, k': Kernel, limit: nat, root: nat, q: nat, pages: map<nat, Pte>, back: set<nat>)
    requires Stands(k, limit, q, pages) && q != root && Elsewhere(k.vm, k'.vm, root)
    requires k'.free <= k.free + back && k'.vm.tables.Keys <= k.vm.tables.Keys + k.free && Avoids(pages, back)
    ensures Stands(k', limit, q, pages)
  {
    assert Untouched(k.vm, k'.vm, root, q);
    ShownOnce(k.vm.tables, q, pages);
    ShowsView(k'.vm.tables, q);
    forall v: nat ensures OpenAt(k'.vm.tables, q, v) {
      assert OpenAt(k.vm.tables, q, v) && SpaceWalkable(k.vm, k'.vm, q, v);
    }
    forall n: nat ensures FrameOk(pages, k'.free, k'.vm.tables.Keys, limit, n) {
      assert FrameOk(pages, k.free, k.vm.tables.Keys, limit, n) && PageAvoids(pages, back, n);
    }
  }

  /** Page `n` is as before, or on a frame that was free. */
  ghost predicate PageFrom(before: map<nat, Pte>, after: map<nat, Pte>, free: set<nat>, n: nat) {
    n in after ==> (n in before && after[n] == before[n]) || after[n].frame in free
  }

  /** Physical memory, one for all spaces. */
  class Ram {
    var bytes: Mem

    constructor (bytes: Mem)
      ensures this.bytes == bytes
    {
      this.bytes := bytes;
    }
  }

  class Space {
    const mmu: Vmm.Mmu
    const root: nat
    const ram: Ram
    ghost var pages: map<nat, Pte>

    ghost predicate Valid()
      reads this`pages, mmu, mmu.pmm, mmu.pmm.bitmap
    {
      match mmu.State()
      case Vm(tables, labels) => mmu.Valid() && IsRoot(labels, root) && UserOpen(tables, root) && Shows(tables, root, pages)
    }

    /** Frames no one has. */
    ghost function Free(): set<nat>
      requires mmu.pmm.Valid()
      reads mmu, mmu.pmm, mmu.pmm.bitmap
    {
      mmu.pmm.Free()
    }

    ghost function Shared(): Kernel
      requires mmu.pmm.Valid()
      reads mmu, mmu.pmm, mmu.pmm.bitmap
    {
      Kernel(mmu.State(), mmu.pmm.Free())
    }

    /** And every user page has a frame of its own that is marked used. */
    ghost predicate Backed()
      reads this`pages, mmu, mmu.pmm, mmu.pmm.bitmap
    {
      Valid() && Owns(pages, Free(), mmu.tables.Keys, mmu.pmm.pageCount)
    }

    lemma BackedIff()
      requires mmu.Valid()
      ensures Backed() <==> Stands(Shared(), mmu.pmm.pageCount, root, pages)
    {}

    constructor (mmu: Vmm.Mmu, root: nat, ram: Ram)
      requires mmu.Valid() && IsRoot(mmu.labels, root) && UserOpen(mmu.tables, root)
      ensures Valid() && this.mmu == mmu && this.root == root && this.ram == ram && pages == View(mmu.tables, root)
    {
      this.mmu, this.root, this.ram := mmu, root, ram;
      pages := View(mmu.tables, root);
      new;
      ShowsView(mmu.tables, root);
    }

    /** `vmm_map_page` in this space. */
    method Map(virt: nat, phys: nat, flags: nat) returns (r: Outcome<()>)
      requires Valid() && flags < 0x1000 && virt < USER_TOP
      modifies this`pages, mmu`tables, mmu`labels, mmu.pmm, mmu.pmm.bitmap
      ensures r.Done? ==> Valid() && pages == Put(old(pages), Vpn(virt), Pte(phys / PAGE, Vmm.WithPresent(flags)))
      ensures r.Done? ==> Free() <= old(Free()) && mmu.tables.Keys == old(mmu.tables.Keys) + (old(Free()) - Free())
      ensures r.Done? ==> Uses(old(Shared()), Shared(), root)
      ensures r.Panic? ==> mmu.pmm.Valid() && (Free() == {} || 0 in old(Free()))
    {
      assert OpenAt(mmu.tables, root, virt);
      ghost var s, e := mmu.State(), Pte(phys / PAGE, Vmm.WithPresent(flags));
      r := mmu.MapPage(root, virt, phys, flags);
      if r.Done? {
        ShowsPut(s, mmu.State(), root, virt, e, pages);
        OwnWrite(s, mmu.State(), root, virt, e);
        pages := Put(pages, Vpn(virt), e);
      }
    }

    /** `vmm_unmap_page` in this space. */
    method Unmap(virt: nat) returns (r: Outcome<()>)
      requires Valid() && virt < USER_TOP
      modifies this`pages, mmu`tables
      ensures r.Done? <==> Vpn(virt) in old(pages)
      ensures r.Done? ==> Valid() && pages == old(pages) - {Vpn(virt)} && mmu.tables.Keys == old(mmu.tables.Keys)
      ensures r.Done? ==> Elsewhere(old(mmu.State()), mmu.State(), root)
    {
      assert OpenAt(mmu.tables, root, virt);
      ghost var s := mmu.State();
      ShownOnce(mmu.tables, root, pages);
      r := mmu.UnmapPage(root, virt);
      if r.Done? {
        ShowsPut(s, mmu.State(), root, virt, ABSENT, pages);
        OwnWrite(s, mmu.State(), root, virt, ABSENT);
        pages := Put(pages, Vpn(virt), ABSENT);
      }
    }

    /** `vmm_get_mapping` in this space. */
    method Get(virt: nat) returns (r: Option<(nat, nat)>)
      requires Valid() && virt < USER_TOP
      ensures r.Some? <==> Vpn(virt) in pages
      ensures r.Some? ==> r.value == (pages[Vpn(virt)].frame * PAGE, pages[Vpn(virt)].flags)
    {
      assert OpenAt(mmu.tables, root, virt);
      ShownOnce(mmu.tables, root, pages);
      r := mmu.GetMapping(root, virt);
    }

    /** `memcpy` to a physical address. */
    method Write(a: nat, bytes: seq<byte>)
      modifies ram
      ensures ram.bytes == Overwrite(old(ram.bytes), a, bytes)
    {
      var i := 0;
      while i < |bytes|
        invariant 0 <= i <= |bytes| && Overwrite(old(ram.bytes), a, bytes) == Overwrite(ram.bytes, a + i, bytes[i..])
      {
        assert bytes[i..][1..] == bytes[i + 1..];
        ram.bytes := ram.bytes[a + i := bytes[i]];
        i := i + 1;
      }
    }
  }

  /** A new space has no user page. */
  lemma NoUserPages(s: Vm, s': Vm, kernel: nat, n: nat, free: set<nat>, tables: set<nat>, limit: nat)
    requires WellFormed(s') && Creates(s, s', kernel, n)
    ensures Owns(View(s'.tables, n), free, tables, limit) && Elsewhere(s, s', n)
    ensures forall p :: p in View(s'.tables, n) ==> p >= HALF
  {
    forall q: nat ensures Untouched(s, s', n, q) {
      assert LabelKept(s, s', q) && SameView(s, s', q);
    }
  }

  /** `vmm_create_user_space`: a space as the code below uses it, whatever the kernel's half holds. */
  method CreateUserSpace(mmu: Vmm.Mmu, ram: Ram) returns (r: Outcome<Space>)
    requires mmu.Valid()
    modifies mmu`tables, mmu`labels, mmu.pmm, mmu.pmm.bitmap
    ensures r.Done? ==>
      var space := r.value;
      && fresh(space) && space.mmu == mmu && space.ram == ram && space.Backed()
      && space.root in old(mmu.pmm.Free()) && space.pages == UpperHalf(old(View(mmu.tables, mmu.kernelRoot)))
      && (forall n :: n in space.pages ==> n >= HALF)
      && Creates(old(mmu.State()), mmu.State(), mmu.kernelRoot, space.root)
      && Uses(Kernel(old(mmu.State()), old(mmu.pmm.Free())), space.Shared(), space.root)
    ensures r.Panic? ==> mmu.pmm.Valid() && (mmu.pmm.Free() == {} || 0 in old(mmu.pmm.Free()))
  {
    ghost var s := mmu.State();
    var root := mmu.CreateSpace(mmu.kernelRoot);
    if root.Panic? {
      return Panic;
    }
    FreshOpen(mmu.tables, root.value);
    NoUserPages(s, mmu.State(), mmu.kernelRoot, root.value, mmu.pmm.Free(), mmu.tables.Keys, mmu.pmm.pageCount);
    var space := new Space(mmu, root.value, ram);
    r := Done(space);
  }
}
