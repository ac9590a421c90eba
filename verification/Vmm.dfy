/** The virtual memory manager, src/mm/vmm.c. The direct map is the identity here: a table is
    found by its frame number. Page flushes and loads of CR3 have no effect on this state. */
module Vmm {
  import opened Machine
  import opened Outcomes
  import opened Pmm
  import opened PageTables
  import opened TableProofs
  import opened VmSteps

  /** Building an entry word and reading it back with ENTRY_TO_PHYS and the flag mask gives the
      frame and the flags exactly when the flags stay within the low twelve bits: ENTRY_TO_PHYS
      does not strip PAGE_NX or any other high flag. */
  lemma EntryRoundTrip(phys: bv64, flags: bv64)
    ensures var entry := (phys & !0xfff) | (flags | 1);
      (entry & !0xfff == phys & !0xfff && entry & 0xfff == flags | 1) <==> flags <= 0xfff
  {}

  function WithPresent(flags: nat): (f: nat)
    ensures f % 2 == 1 && f / 2 == flags / 2
  {
    flags - flags % 2 + 1
  }

  function Directory(t: Tables, root: nat, virt: nat): (pd: Option<nat>)
    ensures pd.None? ==> Leaf(t, root, virt) == None
    ensures pd.Some? ==> Leaf(t, root, virt) == Descend(t, pd.value, Slot(virt, 2))
  {
    match Descend(t, root, Slot(virt, 4))
    case None => None
    case Some(dir) => Descend(t, dir, Slot(virt, 3))
  }

  lemma DirectoryKept(s: Vm, s': Vm, root: nat, virt: nat)
    requires WellFormed(s) && Extends(s, s') && IsRoot(s.labels, root) && Directory(s.tables, root, virt).Some?
    ensures Directory(s'.tables, root, virt) == Directory(s.tables, root, virt)
  {
    assert EntryKept(s, s', root, Slot(virt, 4)) && EntryOk(s.tables, s.labels, root, Slot(virt, 4));
    var dir := s.tables[root][Slot(virt, 4)].frame;
    assert EntryKept(s, s', dir, Slot(virt, 3));
  }

  /** The frames that left the allocator are the new tables. */
  ghost predicate Took(s: Vm, free: set<nat>, s': Vm, free': set<nat>) {
    free' <= free && s'.tables.Keys == s.tables.Keys + (free - free')
  }

  /** One level of a walk is done: entry `slot` of `f` points to table `c`, which was there or
      is a page fresh from the allocator. */
  ghost predicate Linked(s: Vm, free: set<nat>, s': Vm, free': set<nat>, f: nat, slot: nat, c: nat) {
    && f in s.tables && f in s.labels && Level(s.labels[f]) > 1 && slot < 512
    && if Present(s.tables[f][slot]) then
         s' == s && free' == free && c == s.tables[f][slot].frame
       else
         && c in free && c != 0 && c !in s.tables && free' == free - {c}
         && s' == Vm(AddTable(s.tables, f, slot, c), s.labels[c := ChildLabel(f, s.labels[f], slot)])
  }

  lemma LinkedGrows(s: Vm, free: set<nat>, s': Vm, free': set<nat>, f: nat, slot: nat, c: nat)
    requires WellFormed(s) && s.tables.Keys !! free && Linked(s, free, s', free', f, slot, c)
    requires Present(s.tables[f][slot]) ==> !Huge(s.tables[f][slot])
    ensures Grows(s, s') && Took(s, free, s', free') && s'.tables.Keys !! free'
    ensures Descend(s'.tables, f, slot) == Some(c) && c in s'.tables
    ensures c in s'.labels && s'.labels[c] == ChildLabel(f, s.labels[f], slot)
  {
    if Present(s.tables[f][slot]) {
      GrowsRefl(s);
      assert EntryOk(s.tables, s.labels, f, slot);
    } else {
      AddTableGrows(s, f, slot, c);
    }
  }

  lemma TwoLinks(s0: Vm, free0: set<nat>, s1: Vm, free1: set<nat>, s2: Vm, free2: set<nat>, root: nat, virt: nat, dir: nat, pd: nat)
    requires WellFormed(s0) && IsRoot(s0.labels, root) && Walkable(s0.tables, root, virt, 4)
    requires Grows(s0, s1) && Took(s0, free0, s1, free1) && s1.tables.Keys !! free1
    requires Descend(s1.tables, root, Slot(virt, 4)) == Some(dir) && dir in s1.labels && Level(s1.labels[dir]) == 3
    requires Linked(s1, free1, s2, free2, dir, Slot(virt, 3), pd)
    ensures Grows(s0, s2) && Took(s0, free0, s2, free2) && s2.tables.Keys !! free2
    ensures Directory(s2.tables, root, virt) == Some(pd) && pd in s2.tables && pd in s2.labels && Level(s2.labels[pd]) == 2
  {
    assert StaysWalkable(s0, s1, root, virt, 4);
    LinkedGrows(s1, free1, s2, free2, dir, Slot(virt, 3), pd);
    assert EntryKept(s1, s2, root, Slot(virt, 4));
    GrowsTrans(s0, s1, s2);
  }

  lemma ThreeLinks(s0: Vm, free0: set<nat>, s2: Vm, free2: set<nat>, s3: Vm, free3: set<nat>, root: nat, virt: nat, pd: nat, pt: nat)
    requires WellFormed(s0) && IsRoot(s0.labels, root) && Walkable(s0.tables, root, virt, 4)
    requires Grows(s0, s2) && Took(s0, free0, s2, free2) && s2.tables.Keys !! free2
    requires Directory(s2.tables, root, virt) == Some(pd) && pd in s2.labels && Level(s2.labels[pd]) == 2
    requires Linked(s2, free2, s3, free3, pd, Slot(virt, 2), pt)
    ensures Grows(s0, s3) && Took(s0, free0, s3, free3) && s3.tables.Keys !! free3
    ensures Leaf(s3.tables, root, virt) == Some(pt) && pt in s3.tables
  {
    assert StaysWalkable(s0, s2, root, virt, 4);
    LinkedGrows(s2, free2, s3, free3, pd, Slot(virt, 2), pt);
    DirectoryKept(s2, s3, root, virt);
    GrowsTrans(s0, s2, s3);
  }

  class Mmu {
    const pmm: PageAllocator
    var tables: Tables
    ghost var labels: Labels
    var kernelRoot: nat

    ghost predicate Valid()
      reads this, pmm, pmm.bitmap
    {
      && pmm.Valid()
      && Tree(tables, labels)
      && IsRoot(labels, kernelRoot)
      && tables.Keys !! pmm.Free()
    }

    ghost function State(): Vm
      reads this
    {
      Vm(tables, labels)
    }

    constructor (pmm: PageAllocator, boot: Tables, ghost bootLabels: Labels, bootRoot: nat)
      requires pmm.Valid() && Tree(boot, bootLabels) && IsRoot(bootLabels, bootRoot)
      requires boot.Keys !! pmm.Free()
      ensures Valid() && this.pmm == pmm && State() == Vm(boot, bootLabels) && kernelRoot == bootRoot
    {
      this.pmm := pmm;
      tables := boot;
      labels := bootLabels;
      kernelRoot := bootRoot;
    }

    /** One level of an allocating walk: the table below an entry. An absent entry gets a new
        zeroed table, never page 0: address 0 is read as out of memory. */
    method NextTable(f: nat, slot: nat) returns (r: Outcome<nat>)
      requires pmm.Valid() && tables.Keys !! pmm.Free()
      requires f in tables && f in labels && Level(labels[f]) > 1 && slot < 512
      modifies this`tables, this`labels, pmm, pmm.bitmap
      ensures pmm.Valid() && pmm.Free() <= old(pmm.Free())
      ensures r.Done? ==> Linked(old(State()), old(pmm.Free()), State(), pmm.Free(), f, slot, r.value)
      ensures r.Panic? ==> pmm.Valid() && (pmm.Free() == {} || 0 in old(pmm.Free()))
    {
      if !Present(tables[f][slot]) {
        var phys := pmm.AllocPage();
        if phys.Panic? || phys.value == 0 {
          return Panic;
        }
        var n := phys.value / PAGE;
        labels := labels[n := ChildLabel(f, labels[f], slot)];
        tables := AddTable(tables, f, slot, n);
      }
      r := Done(tables[f][slot].frame);
    }

    /** `vmm_get_pte` with `alloc` set: the table that holds the level-1 entry of an address. */
    method MakePte(root: nat, virt: nat) returns (r: Outcome<nat>)
      requires Valid() && IsRoot(labels, root) && Walkable(tables, root, virt, 4)
      modifies this`tables, this`labels, pmm, pmm.bitmap
      ensures r.Done? ==> Valid() && Grows(old(State()), State())
      ensures r.Done? ==> Took(old(State()), old(pmm.Free()), State(), pmm.Free())
      ensures r.Done? ==> Leaf(tables, root, virt) == Some(r.value) && r.value in tables
      ensures r.Panic? ==> pmm.Valid() && (pmm.Free() == {} || 0 in old(pmm.Free()))
    {
      ghost var s0, free0 := State(), pmm.Free();
      var dir := NextTable(root, Slot(virt, 4));
      if dir.Panic? {
        return Panic;
      }
      ghost var s1, free1 := State(), pmm.Free();
      LinkedGrows(s0, free0, s1, free1, root, Slot(virt, 4), dir.value);
      var pd := NextTable(dir.value, Slot(virt, 3));
      if pd.Panic? {
        return Panic;
      }
      ghost var s2, free2 := State(), pmm.Free();
      TwoLinks(s0, free0, s1, free1, s2, free2, root, virt, dir.value, pd.value);
      r := NextTable(pd.value, Slot(virt, 2));
      if r.Done? {
        ThreeLinks(s0, free0, s2, free2, State(), pmm.Free(), root, virt, pd.value, r.value);
      }
    }

    /** `vmm_get_pte` with `alloc` clear: the same walk, stopping at the first absent entry. */
    method FindPte(root: nat, virt: nat) returns (pt: Option<nat>)
      requires Valid() && IsRoot(labels, root) && Walkable(tables, root, virt, 4)
      ensures pt == Leaf(tables, root, virt)
      ensures pt.Some? ==> pt.value in tables && Level(labels[pt.value]) == 1
    {
      assert EntryOk(tables, labels, root, Slot(virt, 4));
      if !Present(tables[root][Slot(virt, 4)]) {
        return None;
      }
      var dir := tables[root][Slot(virt, 4)].frame;
      assert EntryOk(tables, labels, dir, Slot(virt, 3));
      if !Present(tables[dir][Slot(virt, 3)]) {
        return None;
      }
      var pd := tables[dir][Slot(virt, 3)].frame;
      assert EntryOk(tables, labels, pd, Slot(virt, 2));
      if !Present(tables[pd][Slot(virt, 2)]) {
        return None;
      }
      pt := Some(tables[pd][Slot(virt, 2)].frame);
    }

    /** `vmm_get_mapping`: the physical page and the flags of a mapped address. */
    method GetMapping(root: nat, virt: nat) returns (r: Option<(nat, nat)>)
      requires Valid() && IsRoot(labels, root) && Walkable(tables, root, virt, 4)
      ensures r.Some? <==> Vpn(virt) in View(tables, root)
      ensures r.Some? ==>
        var e := View(tables, root)[Vpn(virt)];
        r.value == (e.frame * PAGE, e.flags)
    {
      LookupByVpn(tables, root, virt);
      assert LookupPage(tables, root, Vpn(virt)) == Lookup(tables, root, virt);
      var pt := FindPte(root, virt);
      if pt.None? || !Present(tables[pt.value][Slot(virt, 1)]) {
        return None;
      }
      var e := tables[pt.value][Slot(virt, 1)];
      r := Some((e.frame * PAGE, e.flags));
    }

    /** `vmm_map_page`. The only way to panic is to run out of memory (or to be given page 0). */
    method MapPage(root: nat, virt: nat, phys: nat, flags: nat) returns (r: Outcome<()>)
      requires Valid() && IsRoot(labels, root) && Walkable(tables, root, virt, 4) && flags < 0x1000
      modifies this`tables, this`labels, pmm, pmm.bitmap
      ensures r.Done? ==> Valid() && Writes(old(State()), State(), root, virt, Pte(phys / PAGE, WithPresent(flags)))
      ensures r.Done? ==> Took(old(State()), old(pmm.Free()), State(), pmm.Free())
      ensures r.Panic? ==> pmm.Valid() && (pmm.Free() == {} || 0 in old(pmm.Free()))
    {
      var pt := MakePte(root, virt);
      if pt.Panic? {
        return Panic;
      }
      FillEntry(root, virt, pt.value, Pte(phys / PAGE, WithPresent(flags)), old(State()));
      r := Done(());
    }

    method FillEntry(root: nat, virt: nat, pt: nat, e: Pte, ghost s: Vm)
      requires Valid() && Leaf(tables, root, virt) == Some(pt) && pt in tables
      requires WellFormed(s) && IsRoot(s.labels, root) && Grows(s, State())
      modifies this`tables
      ensures Valid() && Writes(s, State(), root, virt, e) && tables.Keys == old(tables.Keys)
    {
      tables := SetEntry(tables, pt, Slot(virt, 1), e);
      GrowThenWrite(s, old(State()), State(), root, virt, e);
    }

    /** `vmm_unmap_page`: panics exactly when the address is not mapped. */
    method UnmapPage(root: nat, virt: nat) returns (r: Outcome<()>)
      requires Valid() && IsRoot(labels, root) && Walkable(tables, root, virt, 4)
      modifies this`tables
      ensures r.Done? <==> Vpn(virt) in old(View(tables, root))
      ensures r.Done? ==> Valid() && Writes(old(State()), State(), root, virt, ABSENT) && tables.Keys == old(tables.Keys)
      ensures r.Panic? ==> tables == old(tables)
    {
      LookupByVpn(tables, root, virt);
      assert LookupPage(tables, root, Vpn(virt)) == Lookup(tables, root, virt);
      var pt := FindPte(root, virt);
      if pt.None? || !Present(tables[pt.value][Slot(virt, 1)]) {
        return Panic;
      }
      ClearEntry(root, virt, pt.value);
      r := Done(());
    }

    method ClearEntry(root: nat, virt: nat, pt: nat)
      requires Valid() && IsRoot(labels, root) && Leaf(tables, root, virt) == Some(pt) && pt in tables
      modifies this`tables
      ensures Valid() && Writes(old(State()), State(), root, virt, ABSENT) && tables.Keys == old(tables.Keys)
    {
      GrowsRefl(State());
      FillEntry(root, virt, pt, ABSENT, State());
    }

    /** `vmm_create_user_space`, and `vmm_init` with the boot loader's top-level table as source. */
    method CreateSpace(source: nat) returns (r: Outcome<nat>)
      requires Valid() && IsRoot(labels, source)
      modifies this`tables, this`labels, pmm, pmm.bitmap
      ensures r.Done? ==> Valid() && Creates(old(State()), State(), source, r.value)
      ensures r.Done? ==> Took(old(State()), old(pmm.Free()), State(), pmm.Free())
      ensures r.Done? ==> State() == Vm(old(tables)[r.value := tables[r.value]], old(labels)[r.value := Root])
      ensures r.Panic? ==> pmm.Valid() && (pmm.Free() == {} || 0 in old(pmm.Free()))
    {
      var phys := pmm.AllocPage();
      if phys.Panic? || phys.value == 0 {
        return Panic;
      }
      var n := phys.value / PAGE;
      var top := EmptyTable();
      for i := 256 to 512
        invariant forall k :: 0 <= k < 512 ==> top[k] == if 256 <= k < i then tables[source][k] else ABSENT
      {
        top := top[i := tables[source][i]];
      }
      NewSpaceCreates(State(), source, n, top);
      labels := labels[n := Root];
      tables := tables[n := top];
      r := Done(n);
    }
  }

  /** `vmm_init`: the kernel's space takes over the upper half of the boot loader's tables. */
  method Init(pmm: PageAllocator, boot: Tables, ghost bootLabels: Labels, bootRoot: nat) returns (r: Outcome<Mmu>)
    requires pmm.Valid() && Tree(boot, bootLabels) && IsRoot(bootLabels, bootRoot) && boot.Keys !! pmm.Free()
    modifies pmm, pmm.bitmap
    ensures r.Done? ==>
      var mmu := r.value;
      && fresh(mmu) && mmu.pmm == pmm && mmu.Valid()
      && Creates(Vm(boot, bootLabels), mmu.State(), bootRoot, mmu.kernelRoot)
    ensures r.Panic? ==> pmm.Valid() && (pmm.Free() == {} || 0 in old(pmm.Free()))
  {
    var mmu := new Mmu(pmm, boot, bootLabels, bootRoot);
    var k := mmu.CreateSpace(bootRoot);
    if k.Panic? {
      return Panic;
    }
    mmu.kernelRoot := k.value;
    r := Done(mmu);
  }
}
