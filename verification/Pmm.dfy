/** The physical page allocator, src/mm/pmm.c: a bitmap of 64-bit words, one bit per
    4096-byte page, a set bit meaning "used". A word is its 64 bits, lowest first. */
module Pmm {
  import opened Machine
  import opened Outcomes

  type Word = w: seq<bool> | |w| == 64 witness seq(64, i => true)

  const FULL_WORD: Word := seq(64, i => true)

  /** The count of trailing zeros of the complement: the lowest clear bit. */
  function LowestClear(w: Word, from: nat := 0): (b: nat)
    requires from <= 64
    requires exists i :: from <= i < 64 && !w[i]
    ensures from <= b < 64 && !w[b]
    ensures forall j :: from <= j < b ==> w[j]
    decreases 64 - from
  {
    if !w[from] then from else LowestClear(w, from + 1)
  }

  /** Distance from word `start` forward to word `w`, wrapping at `words`. */
  function Ahead(start: nat, w: nat, words: nat): (d: nat)
    requires start < words && w < words
    ensures d < words
  {
    if w >= start then w - start else w + words - start
  }

  /** The word `i` places after `start`, wrapping at `words`. */
  function Wrapped(start: nat, i: nat, words: nat): (w: nat)
    requires start < words && i < words
    ensures w < words && Ahead(start, w, words) == i
  {
    DivModUnique(start + i, words, if start + i >= words then 1 else 0, if start + i >= words then start + i - words else start + i);
    (start + i) % words
  }

  /** The pages `start .. start + count`. */
  function Run(start: nat, count: nat): set<nat> {
    set p: nat | p < start + count && InRun(p, start, count)
  }

  predicate InRun(p: nat, start: nat, count: nat) {
    start <= p < start + count
  }

  /** Page `p` lies wholly inside the bytes `base .. base + length`. */
  predicate Inside(p: nat, base: nat, length: nat) {
    base <= p * PAGE && (p + 1) * PAGE <= base + length
  }

  /** Page `p` reaches into the bytes `base .. base + length`; a range of no bytes that
      starts in the middle of a page still meets that page. */
  predicate Meets(p: nat, base: nat, length: nat) {
    p * PAGE < base + length && base < (p + 1) * PAGE
  }

  /** Every page that meets the range is below `pageCount`. */
  ghost predicate RangeBelow(base: nat, length: nat, pageCount: nat) {
    forall p: nat :: Meets(p, base, length) ==> p < pageCount
  }

  /** What a single-page allocation may return: the first word at or after `last`, wrapping,
      that has a free page, and the lowest free page of that word. */
  ghost predicate NextFit(free: set<nat>, last: nat, words: nat, page: nat)
    requires last < words && forall q :: q in free ==> q / 64 < words
  {
    && page in free
    && forall q :: q in free ==>
         || Ahead(last, page / 64, words) < Ahead(last, q / 64, words)
         || (page / 64 == q / 64 && page <= q)
  }

  /** What a multi-page allocation may return: the lowest run of free pages. */
  ghost predicate FirstFit(free: set<nat>, count: nat, start: nat) {
    && Run(start, count) <= free
    && forall s: nat :: s < start ==> !(Run(s, count) <= free)
  }

  class PageAllocator {
    const pageCount: nat
    const bitmap: array<Word>
    var lastAllocWord: nat

    ghost predicate Valid()
      reads this, bitmap
    {
      && bitmap.Length == (pageCount + 63) / 64
      && (bitmap.Length > 0 ==> lastAllocWord < bitmap.Length)
    }

    predicate IsUsed(page: nat)
      requires page / 64 < bitmap.Length
      reads bitmap
    {
      bitmap[page / 64][page % 64]
    }

    /** The abstract state: the free page numbers. */
    ghost function Free(): set<nat>
      requires Valid()
      reads this, bitmap
    {
      set p | 0 <= p < pageCount && !IsUsed(p)
    }

    /** No bit past the last page is clear, so the bitmap and the free set say the same. */
    ghost predicate TailUsed()
      requires Valid()
      reads this, bitmap
    {
      forall p: nat :: pageCount <= p < 64 * bitmap.Length ==> IsUsed(p)
    }

    constructor (pageCount: nat)
      ensures Valid() && fresh(bitmap) && this.pageCount == pageCount
      ensures Free() == {} && TailUsed() && lastAllocWord == 0
    {
      this.pageCount := pageCount;
      bitmap := new Word[(pageCount + 63) / 64](i => FULL_WORD);
      lastAllocWord := 0;
    }

    method SetBit(page: nat, used: bool)
      requires Valid() && page < pageCount
      modifies bitmap
      ensures Valid()
      ensures Free() == if used then old(Free()) - {page} else old(Free()) + {page}
      ensures old(TailUsed()) ==> TailUsed()
    {
      bitmap[page / 64] := bitmap[page / 64][page % 64 := used];
      assert forall p: nat :: p != page && p / 64 < bitmap.Length ==> IsUsed(p) == old(IsUsed(p));
      assert IsUsed(page) == used;
    }

    method MarkUsed(addr: nat) returns (r: Outcome<()>)
      requires Valid()
      modifies bitmap
      ensures Valid() && (old(TailUsed()) ==> TailUsed())
      ensures r.Done? <==> addr / PAGE < pageCount
      ensures Free() == if r.Done? then old(Free()) - {addr / PAGE} else old(Free())
    {
      var bit := addr / PAGE;
      if bit >= pageCount {
        return Panic;
      }
      SetBit(bit, true);
      r := Done(());
    }

    method MarkFree(addr: nat) returns (r: Outcome<()>)
      requires Valid()
      modifies bitmap
      ensures Valid() && (old(TailUsed()) ==> TailUsed())
      ensures r.Done? <==> addr / PAGE < pageCount
      ensures Free() == if r.Done? then old(Free()) + {addr / PAGE} else old(Free())
    {
      var bit := addr / PAGE;
      if bit >= pageCount {
        return Panic;
      }
      SetBit(bit, false);
      r := Done(());
    }

    /** Marks every page the range meets; panics exactly when one of them does not exist. */
    method MarkRangeUsed(base: nat, length: nat) returns (r: Outcome<()>)
      requires Valid()
      modifies bitmap
      ensures Valid() && (old(TailUsed()) ==> TailUsed())
      ensures r.Done? <==> RangeBelow(base, length, pageCount)
      ensures r.Done? ==> Free() == set p | p in old(Free()) && !Meets(p, base, length)
    {
      var addr := base / PAGE * PAGE;
      var last := (base + length + PAGE - 1) / PAGE * PAGE;
      ghost var page, end := base / PAGE, (base + length + PAGE - 1) / PAGE;
      assert forall p: nat :: Meets(p, base, length) <==> page <= p < end;
      while addr < last
        invariant addr == page * PAGE && base / PAGE <= page
        invariant Valid() && (old(TailUsed()) ==> TailUsed())
        invariant forall p: nat :: p < page && Meets(p, base, length) ==> p < pageCount
        invariant Free() == set p | p in old(Free()) && !(p < page && Meets(p, base, length))
        decreases last - addr
      {
        assert Meets(page, base, length);
        r := MarkUsed(addr);
        if r.Panic? {
          return;
        }
        addr, page := addr + PAGE, page + 1;
      }
      r := Done(());
    }

    /** Marks every page that lies wholly inside the range. */
    method MarkRangeFree(base: nat, length: nat) returns (r: Outcome<()>)
      requires Valid()
      modifies bitmap
      ensures Valid() && (old(TailUsed()) ==> TailUsed())
      ensures r.Done? <==> forall p: nat :: Inside(p, base, length) ==> p < pageCount
      ensures r.Done? ==> Free() == old(Free()) + set p | 0 <= p < pageCount && Inside(p, base, length)
    {
      var addr := (base + PAGE - 1) / PAGE * PAGE;
      var last := (base + length) / PAGE * PAGE;
      ghost var page, end := (base + PAGE - 1) / PAGE, (base + length) / PAGE;
      assert forall p: nat :: Inside(p, base, length) <==> page <= p < end;
      while addr < last
        invariant addr == page * PAGE && (base + PAGE - 1) / PAGE <= page
        invariant Valid() && (old(TailUsed()) ==> TailUsed())
        invariant forall p: nat :: p < page && Inside(p, base, length) ==> p < pageCount
        invariant Free() == old(Free()) + set p | 0 <= p < pageCount && p < page && Inside(p, base, length)
        decreases last - addr
      {
        assert Inside(page, base, length);
        r := MarkFree(addr);
        if r.Panic? {
          return;
        }
        addr, page := addr + PAGE, page + 1;
      }
      r := Done(());
    }

    /** Single-page allocation, `pmm_alloc_page`. */
    method AllocPage() returns (r: Outcome<nat>)
      requires Valid()
      modifies this, bitmap
      ensures Valid() && (old(TailUsed()) ==> TailUsed())
      ensures r.Done? <==> old(Free()) != {}
      ensures r.Panic? ==> Free() == {} && lastAllocWord == old(lastAllocWord)
      ensures r.Done? ==>
        var page := r.value / PAGE;
        && r.value == page * PAGE
        && bitmap.Length > 0
        && NextFit(old(Free()), old(lastAllocWord), bitmap.Length, page)
        && Free() == old(Free()) - {page}
        && lastAllocWord == page / 64
    {
      var page := FindNext();
      if page.None? {
        return Panic;
      }
      SetBit(page.value, true);
      lastAllocWord := page.value / 64;
      r := Done(page.value * PAGE);
    }

    /** Its search, word by word from the last one used. */
    method FindNext() returns (page: Option<nat>)
      requires Valid()
      ensures page.None? <==> Free() == {}
      ensures page.Some? ==> bitmap.Length > 0 && NextFit(Free(), lastAllocWord, bitmap.Length, page.value)
    {
      var words := (pageCount + 63) / 64;
      var i := 0;
      while i < words
        invariant 0 <= i <= words
        invariant forall q :: q in Free() ==> i <= Ahead(lastAllocWord, q / 64, words)
      {
        var word := Wrapped(lastAllocWord, i, words);
        page := LowestFree(word);
        if page.Some? {
          FirstInWord(i, word, page.value);
          return;
        }
        SkipWord(i, word);
        i := i + 1;
      }
      page := None;
    }

    /** Lines 67-74: the lowest free page of a word, if it has one. */
    method LowestFree(word: nat) returns (page: Option<nat>)
      requires Valid() && word < bitmap.Length
      ensures page.None? ==> forall q :: q in Free() ==> q / 64 != word
      ensures page.Some? ==> page.value in Free() && page.value / 64 == word
      ensures page.Some? ==> forall q :: q in Free() && q / 64 == word ==> page.value <= q
    {
      assert forall q :: q in Free() ==> !bitmap[q / 64][q % 64];
      if bitmap[word] == FULL_WORD {
        return None;
      }
      FullOrClear(bitmap[word]);
      var bit := LowestClear(bitmap[word]);
      var globalBit := word * 64 + bit;
      if globalBit >= pageCount {
        return None;
      }
      page := Some(globalBit);
    }

    /** A word with no free page can be passed over. */
    lemma SkipWord(i: nat, word: nat)
      requires Valid() && i < bitmap.Length && word == Wrapped(lastAllocWord, i, bitmap.Length)
      requires forall q :: q in Free() ==> q / 64 != word
      requires forall q :: q in Free() ==> i <= Ahead(lastAllocWord, q / 64, bitmap.Length)
      ensures forall q :: q in Free() ==> i + 1 <= Ahead(lastAllocWord, q / 64, bitmap.Length)
    {}

    /** The lowest free page of the first word that has one is the next-fit page. */
    lemma FirstInWord(i: nat, word: nat, page: nat)
      requires Valid() && i < bitmap.Length && word == Wrapped(lastAllocWord, i, bitmap.Length)
      requires page in Free() && page / 64 == word
      requires forall q :: q in Free() && q / 64 == word ==> page <= q
      requires forall q :: q in Free() ==> i <= Ahead(lastAllocWord, q / 64, bitmap.Length)
      ensures NextFit(Free(), lastAllocWord, bitmap.Length, page)
    {}

    /** Contiguous allocation, `pmm_alloc_pages`. */
    method AllocPages(count: nat) returns (r: Outcome<nat>)
      requires Valid()
      modifies this, bitmap
      ensures Valid() && (old(TailUsed()) ==> TailUsed())
      ensures count == 0 ==> r == Done(0) && Free() == old(Free())
      ensures r.Panic? ==> Free() == old(Free())
      ensures count >= 1 && r.Done? ==> r.value % PAGE == 0 && Free() == old(Free()) - Run(r.value / PAGE, count)
      ensures count == 1 && r.Done? ==>
        bitmap.Length > 0 && NextFit(old(Free()), old(lastAllocWord), bitmap.Length, r.value / PAGE)
      ensures count >= 1 && r.Done? ==> Run(r.value / PAGE, count) <= old(Free())
      ensures count >= 2 && r.Done? ==> FirstFit(old(Free()), count, r.value / PAGE)
      ensures count >= 1 ==> (r.Done? <==> exists s: nat :: Run(s, count) <= old(Free()))
      ensures count != 1 ==> lastAllocWord == old(lastAllocWord)
    {
      if count == 0 {
        return Done(0);
      }
      ghost var free := Free();
      if count == 1 {
        r := AllocPage();
        SinglePage(free);
        assert r.Done? ==> Run(r.value / PAGE, 1) == {r.value / PAGE};
        return;
      }
      r := SearchRun(count);
    }

    /** The contiguous search, lines 94-119. */
    method SearchRun(count: nat) returns (r: Outcome<nat>)
      requires Valid() && count >= 2
      modifies bitmap
      ensures Valid() && (old(TailUsed()) ==> TailUsed())
      ensures r.Done? <==> exists s: nat :: Run(s, count) <= old(Free())
      ensures r.Panic? ==> Free() == old(Free())
      ensures r.Done? ==> r.value % PAGE == 0 && FirstFit(old(Free()), count, r.value / PAGE)
      ensures r.Done? ==> Free() == old(Free()) - Run(r.value / PAGE, count)
    {
      var start := FindRun(count);
      if start.None? {
        return Panic;
      }
      TakeRun(start.value, count);
      r := Done(start.value * PAGE);
    }

    /** Its outer loop, which counts free pages in a row. */
    method FindRun(count: nat) returns (start: Option<nat>)
      requires Valid() && count >= 2
      ensures start.Some? <==> exists s: nat :: Run(s, count) <= Free()
      ensures start.Some? ==> start.value + count <= pageCount && FirstFit(Free(), count, start.value)
    {
      var run, runStart, bit := 0, 0, 0;
      while bit < pageCount
        invariant 0 <= bit <= pageCount && 0 <= run < count && run <= bit
        invariant run > 0 ==> runStart == bit - run
        invariant Run(bit - run, run) <= Free()
        invariant bit - run > 0 ==> bit - run - 1 !in Free()
        invariant forall s: nat :: s + count <= bit ==> !(Run(s, count) <= Free())
      {
        if !IsUsed(bit) {
          if run == 0 {
            runStart := bit;
          }
          run := run + 1;
          if run == count {
            assert Run(runStart, count) == Run(runStart, run - 1) + {bit};
            NoEarlierRun(Free(), bit, run, count);
            return Some(runStart);
          }
        } else {
          run := 0;
        }
        NoEarlierRun(Free(), bit, run, count);
        bit := bit + 1;
      }
      forall s: nat ensures !(Run(s, count) <= Free()) {
        assert s + count - 1 in Run(s, count);
      }
      start := None;
    }

    /** The inner loop of the contiguous allocator. */
    method TakeRun(start: nat, count: nat)
      requires Valid() && start + count <= pageCount
      modifies bitmap
      ensures Valid() && (old(TailUsed()) ==> TailUsed())
      ensures Free() == old(Free()) - Run(start, count)
    {
      var i := start;
      while i < start + count
        invariant start <= i <= start + count
        invariant Valid() && (old(TailUsed()) ==> TailUsed())
        invariant Free() == old(Free()) - Run(start, i - start)
      {
        SetBit(i, true);
        i := i + 1;
      }
    }

    /** `pmm_free_page`: panics on 0, on an unaligned address, past the end and on a double free. */
    method FreePage(addr: nat) returns (r: Outcome<()>)
      requires Valid()
      modifies bitmap
      ensures Valid() && (old(TailUsed()) ==> TailUsed())
      ensures r.Done? <==> Releasable(old(Free()), pageCount, addr, 1)
      ensures Free() == if r.Done? then old(Free()) + {addr / PAGE} else old(Free())
    {
      var bit := addr / PAGE;
      assert addr % PAGE == 0 ==> (0 in Run(bit, 1) <==> addr == 0);
      assert Run(bit, 1) == {bit};
      if addr == 0 || addr % PAGE != 0 || bit >= pageCount || !IsUsed(bit) {
        return Panic;
      }
      SetBit(bit, false);
      r := Done(());
    }

    /** `pmm_free_pages`. */
    method FreePages(addr: nat, count: nat) returns (r: Outcome<()>)
      requires Valid()
      modifies bitmap
      ensures Valid() && (old(TailUsed()) ==> TailUsed())
      ensures r.Done? <==> Releasable(old(Free()), pageCount, addr, count)
      ensures r.Done? ==> Free() == old(Free()) + Run(addr / PAGE, count)
    {
      ghost var free := Free();
      var i := 0;
      while i < count
        invariant 0 <= i <= count
        invariant Valid() && (old(TailUsed()) ==> TailUsed())
        invariant Releasable(free, pageCount, addr, i)
        invariant Free() == free + Run(addr / PAGE, i)
      {
        var p := (addr + i * PAGE) / PAGE;
        assert p == addr / PAGE + i;
        assert Run(addr / PAGE, i + 1) == Run(addr / PAGE, i) + {p};
        assert Run(p, 1) == {p};
        r := FreePage(addr + i * PAGE);
        if r.Panic? {
          assert p in Run(addr / PAGE, count);
          return;
        }
        i := i + 1;
      }
      r := Done(());
    }
  }

  /** The pages `addr .. addr + count` can be given back without a panic. */
  ghost predicate Releasable(free: set<nat>, pageCount: nat, addr: nat, count: nat) {
    count > 0 ==>
      && addr % PAGE == 0
      && forall p :: p in Run(addr / PAGE, count) ==> p != 0 && p < pageCount && p !in free
  }

  lemma FullOrClear(w: Word)
    ensures w == FULL_WORD || exists k :: 0 <= k < 64 && !w[k]
  {
    if forall k :: 0 <= k < 64 ==> w[k] {
      assert w == FULL_WORD;
    }
  }

  lemma SinglePage(free: set<nat>)
    ensures free != {} <==> exists s: nat :: Run(s, 1) <= free
  {
    if free != {} {
      var s :| s in free;
      assert Run(s, 1) == {s};
    } else {
      forall s: nat ensures !(Run(s, 1) <= free) {
        assert s in Run(s, 1);
      }
    }
  }

  lemma NoEarlierRun(free: set<nat>, bit: nat, run: nat, count: nat)
    requires run <= bit + 1 && run <= count
    requires forall s: nat :: s + count <= bit ==> !(Run(s, count) <= free)
    requires bit + 1 - run > 0 ==> bit - run !in free
    ensures forall s: nat :: s + count <= bit + 1 && s < bit + 1 - run ==> !(Run(s, count) <= free)
    ensures run < count ==> forall s: nat :: s + count <= bit + 1 ==> !(Run(s, count) <= free)
  {
    forall s: nat | s + count <= bit + 1 && s < bit + 1 - run
      ensures !(Run(s, count) <= free)
    {
      if s + count == bit + 1 {
        assert bit - run in Run(s, count);
      }
    }
  }

  lemma DivModUnique(x: nat, n: nat, q: nat, r: nat)
    requires n > 0 && r < n && x == n * q + r
    ensures x / n == q && x % n == r
  {
    var d := q - x / n;
    assert x == n * (x / n) + x % n;
    assert n * d == x % n - r;
    assert d == 0 by {
      if d >= 1 { MulAtLeast(n, d); assert false; }
      if d <= -1 { MulAtLeast(n, -d); assert false; }
    }
  }

  lemma MulAtLeast(n: nat, d: nat)
    requires d >= 1
    ensures n * d >= n
  {}
}
