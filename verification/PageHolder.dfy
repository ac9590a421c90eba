/** The users of the page allocator, seen together: every call of `pmm_alloc_pages` and
    `pmm_free_pages` on the allocator itself is a step of the ledger. */
module PageHolder {
  import opened Machine
  import opened Outcomes
  import opened Pmm
  import opened PmmRuns

  class Holder {
    const pmm: PageAllocator
    ghost const pool: set<nat>
    ghost var ledger: Ledger

    ghost predicate Valid()
      reads this, pmm, pmm.bitmap
    {
      && pmm.Valid() && pmm.Free() == ledger.free && Accounted(pool, ledger)
      && forall p :: p in pool ==> p != 0 && p < pmm.pageCount
    }

    constructor (pmm: PageAllocator)
      requires pmm.Valid() && 0 !in pmm.Free()
      ensures Valid() && this.pmm == pmm && pool == pmm.Free() && ledger == Ledger(pool, map[])
    {
      this.pmm := pmm;
      pool := pmm.Free();
      ledger := Ledger(pmm.Free(), map[]);
      new;
      assert Held(map[]) == {};
    }

    /** `pmm_alloc_pages`: a step that takes a free run, or a panic exactly when there is none; nothing
        for no pages. */
    method Take(count: nat) returns (r: Outcome<nat>)
      requires Valid()
      modifies this, pmm, pmm.bitmap
      ensures Valid()
      ensures count == 0 ==> r == Done(0) && ledger == old(ledger)
      ensures r.Done? && count > 0 ==> r.value % PAGE == 0 && r.value != 0 && Step(old(ledger), Call.Take(r.value / PAGE, count), ledger)
      ensures r.Panic? ==> ledger == old(ledger)
      ensures r.Panic? <==> count > 0 && forall s: nat :: !(Run(s, count) <= old(ledger).free)
    {
      r := pmm.AllocPages(count);
      if r.Done? && count > 0 {
        ghost var start := r.value / PAGE;
        ghost var after := Ledger(ledger.free - Run(start, count), ledger.live[start := count]);
        StepAccounted(pool, ledger, Call.Take(start, count), after);
        InPool(pool, ledger, start, count);
        ledger := after;
      }
    }

    /** `pmm_free_pages` of a whole live allocation: a step that gives it back, and never a panic. */
    method GiveBack(addr: nat, count: nat) returns (r: Outcome<()>)
      requires Valid() && addr % PAGE == 0 && addr / PAGE in ledger.live && ledger.live[addr / PAGE] == count
      modifies this, pmm, pmm.bitmap
      ensures r.Done? && Valid() && Step(old(ledger), Call.GiveBack(addr / PAGE), ledger)
    {
      ghost var start := addr / PAGE;
      ghost var after := Ledger(ledger.free + Run(start, count), ledger.live - {start});
      StepAccounted(pool, ledger, Call.GiveBack(start), after);
      HeldReleasable(pool, ledger, pmm.pageCount, addr);
      r := pmm.FreePages(addr, count);
      ledger := after;
    }
  }

  lemma InPool(pool: set<nat>, l: Ledger, start: nat, count: nat)
    requires Accounted(pool, l) && count >= 1 && Run(start, count) <= l.free
    ensures start in pool
  {
    assert InRun(start, start, count) && start in Run(start, count);
  }

  /** A live allocation can be given back. */
  lemma HeldReleasable(pool: set<nat>, l: Ledger, pageCount: nat, addr: nat)
    requires Accounted(pool, l) && (forall p :: p in pool ==> p != 0 && p < pageCount)
    requires addr % PAGE == 0 && addr / PAGE in l.live
    ensures Releasable(l.free, pageCount, addr, l.live[addr / PAGE])
  {
    var s := addr / PAGE;
    forall p | p in Run(s, l.live[s]) ensures p in pool && p !in l.free {
      assert p in Held(l.live);
    }
  }
}
