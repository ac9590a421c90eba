/** Whole runs of the page allocator. A ledger records the free pages and the live
    allocations; `Step` is what the contracts of `AllocPage(s)` and `FreePages` promise. */
module PmmRuns {
  import opened Machine
  import opened Pmm

  /** `live` maps the first page of each live allocation to its page count. */
  datatype Ledger = Ledger(free: set<nat>, live: map<nat, nat>)

  datatype Call = Take(start: nat, count: nat) | GiveBack(start: nat)

  ghost predicate Step(l: Ledger, c: Call, l': Ledger) {
    match c
    case Take(start, count) =>
      && count >= 1 && Run(start, count) <= l.free
      && l' == Ledger(l.free - Run(start, count), l.live[start := count])
    case GiveBack(start) =>
      && start in l.live
      && l' == Ledger(l.free + Run(start, l.live[start]), l.live - {start})
  }

  ghost predicate IsRun(ledgers: seq<Ledger>, calls: seq<Call>) {
    && |ledgers| == |calls| + 1
    && ledgers[0].live == map[]
    && forall i :: 0 <= i < |calls| ==> Step(ledgers[i], calls[i], ledgers[i + 1])
  }

  ghost function Held(live: map<nat, nat>): set<nat> {
    set s, p | s in live && p in Run(s, live[s]) :: p
  }

  /** Every page of the pool is free or held, never both, and held by one allocation only. */
  ghost predicate Accounted(pool: set<nat>, l: Ledger) {
    && l.free + Held(l.live) == pool
    && (forall s :: s in l.live ==> l.live[s] >= 1 && Run(s, l.live[s]) !! l.free)
    && (forall s, t :: s in l.live && t in l.live && s != t ==> Run(s, l.live[s]) !! Run(t, l.live[t]))
  }

  lemma HeldGrows(live: map<nat, nat>, start: nat, count: nat)
    requires start !in live
    ensures Held(live[start := count]) == Held(live) + Run(start, count)
  {
    var live' := live[start := count];
    forall p | p in Held(live) ensures p in Held(live') {
      var s :| s in live && p in Run(s, live[s]);
      assert s in live' && p in Run(s, live'[s]);
    }
    forall p | p in Run(start, count) ensures p in Held(live') {
      assert start in live' && p in Run(start, live'[start]);
    }
  }

  lemma TakeAccounted(pool: set<nat>, l: Ledger, start: nat, count: nat, l': Ledger)
    requires Accounted(pool, l) && Step(l, Take(start, count), l')
    ensures Accounted(pool, l')
  {
    var taken := Run(start, count);
    assert start in taken;
    assert forall s :: s in l.live ==> s in Run(s, l.live[s]);
    HeldGrows(l.live, start, count);
    assert l'.free + Held(l'.live) == pool;
  }

  lemma GiveBackAccounted(pool: set<nat>, l: Ledger, start: nat, l': Ledger)
    requires Accounted(pool, l) && Step(l, GiveBack(start), l')
    ensures Accounted(pool, l')
  {
    var given := Run(start, l.live[start]);
    forall p | p in Held(l.live)
      ensures p in Held(l'.live) || p in given
    {
      var s :| s in l.live && p in Run(s, l.live[s]);
      assert s == start || (s in l'.live && l'.live[s] == l.live[s]);
    }
    assert forall p :: p in Held(l'.live) ==> p in Held(l.live);
    assert forall p :: p in given ==> p in Held(l.live);
    assert l'.free + Held(l'.live) == pool;
  }

  lemma StepAccounted(pool: set<nat>, l: Ledger, c: Call, l': Ledger)
    requires Accounted(pool, l) && Step(l, c, l')
    ensures Accounted(pool, l')
  {
    match c
    case Take(start, count) => TakeAccounted(pool, l, start, count, l');
    case GiveBack(start) => GiveBackAccounted(pool, l, start, l');
  }

  lemma {:induction false} RunAccounted(ledgers: seq<Ledger>, calls: seq<Call>, i: nat)
    requires IsRun(ledgers, calls) && i < |ledgers|
    ensures Accounted(ledgers[0].free, ledgers[i])
  {
    if i > 0 {
      RunAccounted(ledgers, calls, i - 1);
      StepAccounted(ledgers[0].free, ledgers[i - 1], calls[i - 1], ledgers[i]);
    }
  }

  /** In every run from a pool of existing pages without page 0: no page is ever held by two live
      allocations, nothing outside the pool (the kernel, the bitmap, the initrd) is ever handed
      out, and giving back a live allocation cannot panic. */
  lemma RunsAreSafe(ledgers: seq<Ledger>, calls: seq<Call>, pageCount: nat, i: nat)
    requires IsRun(ledgers, calls) && i < |ledgers|
    requires forall p :: p in ledgers[0].free ==> p != 0 && p < pageCount
    ensures Accounted(ledgers[0].free, ledgers[i])
    ensures i < |calls| && calls[i].Take? ==> Run(calls[i].start, calls[i].count) <= ledgers[0].free
    ensures forall s :: s in ledgers[i].live ==>
      Releasable(ledgers[i].free, pageCount, s * PAGE, ledgers[i].live[s])
  {
    RunAccounted(ledgers, calls, i);
    var l := ledgers[i];
    assert i < |calls| ==> Step(l, calls[i], ledgers[i + 1]);
    forall s | s in l.live
      ensures Releasable(l.free, pageCount, s * PAGE, l.live[s])
    {
      assert s * PAGE / PAGE == s;
      assert forall p :: p in Run(s, l.live[s]) ==> p in Held(l.live);
    }
  }

  /** Handing everything back restores the pool. */
  lemma NothingLost(ledgers: seq<Ledger>, calls: seq<Call>)
    requires IsRun(ledgers, calls)
    requires ledgers[|calls|].live == map[]
    ensures ledgers[|calls|].free == ledgers[0].free
  {
    RunAccounted(ledgers, calls, |calls|);
  }
}
