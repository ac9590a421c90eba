/** `pmm_init`: the allocator's first state, built from the boot loader's memory map. */
module PmmInit {
  import opened Machine
  import opened Outcomes
  import opened Pmm

  datatype MapEntry = MapEntry(base: nat, length: nat, usable: bool)

  /** The end of the highest usable entry, 0 when there is none. */
  function HighestEnd(entries: seq<MapEntry>): (h: nat)
    ensures forall e :: e in entries && e.usable ==> e.base + e.length <= h
    ensures h == 0 || exists e :: e in entries && e.usable && e.base + e.length == h
  {
    if entries == [] then 0
    else
      var n := |entries| - 1;
      var h := HighestEnd(entries[..n]);
      if entries[n].usable && entries[n].base + entries[n].length > h
      then entries[n].base + entries[n].length else h
  }

  /** The first usable entry with room for `size` bytes; `|entries|` when there is none. */
  function FirstRoom(entries: seq<MapEntry>, size: nat, from: nat := 0): (k: nat)
    requires from <= |entries|
    ensures from <= k <= |entries|
    ensures k < |entries| ==> entries[k].usable && entries[k].length >= size
    ensures forall j :: from <= j < k ==> !(entries[j].usable && entries[j].length >= size)
    decreases |entries| - from
  {
    if from == |entries| || (entries[from].usable && entries[from].length >= size) then from
    else FirstRoom(entries, size, from + 1)
  }

  ghost function PageCount(entries: seq<MapEntry>): nat {
    HighestEnd(entries) / PAGE
  }

  ghost function BitmapBytes(entries: seq<MapEntry>): nat {
    (PageCount(entries) + 63) / 64 * 8
  }

  ghost predicate InUsable(entries: seq<MapEntry>, p: nat) {
    exists e :: e in entries && e.usable && Inside(p, e.base, e.length)
  }

  /** Boot succeeds exactly when the bitmap has a home and the kernel, the bitmap and the initrd
      all meet existing pages only. */
  ghost predicate Boots(entries: seq<MapEntry>, kernelBase: nat, kernelSize: nat, initrd: nat, initrdSize: nat) {
    var k := FirstRoom(entries, BitmapBytes(entries));
    && k < |entries|
    && RangeBelow(kernelBase, kernelSize, PageCount(entries))
    && RangeBelow(entries[k].base, BitmapBytes(entries), PageCount(entries))
    && RangeBelow(initrd, initrdSize, PageCount(entries))
  }

  ghost predicate StartsFree(entries: seq<MapEntry>, kernelBase: nat, kernelSize: nat, initrd: nat, initrdSize: nat, p: nat)
    requires Boots(entries, kernelBase, kernelSize, initrd, initrdSize)
  {
    var bitmap := entries[FirstRoom(entries, BitmapBytes(entries))].base;
    && InUsable(entries, p)
    && !Meets(p, kernelBase, kernelSize)
    && !Meets(p, bitmap, BitmapBytes(entries))
    && !Meets(p, initrd, initrdSize)
  }

  /** The bitmap, as long as it really is, lies at the base of the first usable entry with room for
      it, and none of its pages is free. */
  ghost predicate BitmapKept(entries: seq<MapEntry>, free: set<nat>, bytes: nat) {
    var k := FirstRoom(entries, bytes);
    k < |entries| && forall p :: p in free ==> !Meets(p, entries[k].base, bytes)
  }

  /** The two scans of the memory map: how many pages there are and where the bitmap goes. */
  method Layout(entries: seq<MapEntry>) returns (pageCount: nat, bitmapSize: nat, k: nat)
    ensures pageCount == PageCount(entries) && bitmapSize == BitmapBytes(entries) == 8 * ((pageCount + 63) / 64)
    ensures k == FirstRoom(entries, bitmapSize)
  {
    var highest := FindEnd(entries);
    pageCount := highest / PAGE;
    bitmapSize := (pageCount + 63) / 64 * 8;
    k := FindRoom(entries, bitmapSize);
  }

  method FindEnd(entries: seq<MapEntry>) returns (highest: nat)
    ensures highest == HighestEnd(entries)
  {
    highest := 0;
    for i := 0 to |entries|
      invariant highest == HighestEnd(entries[..i])
    {
      assert entries[..i + 1][..i] == entries[..i];
      if entries[i].usable && entries[i].base + entries[i].length > highest {
        highest := entries[i].base + entries[i].length;
      }
    }
    assert entries[..|entries|] == entries;
  }

  method FindRoom(entries: seq<MapEntry>, size: nat) returns (k: nat)
    ensures k == FirstRoom(entries, size)
  {
    k := 0;
    while k < |entries| && !(entries[k].usable && entries[k].length >= size)
      invariant 0 <= k <= |entries|
      invariant forall j :: 0 <= j < k ==> !(entries[j].usable && entries[j].length >= size)
    {
      k := k + 1;
    }
    var first := FirstRoom(entries, size);
    assert first < |entries| ==> entries[first].usable && entries[first].length >= size;
  }

  method Init(entries: seq<MapEntry>, kernelBase: nat, kernelSize: nat, initrd: nat, initrdSize: nat)
    returns (r: Outcome<PageAllocator>)
    ensures r.Done? <==> Boots(entries, kernelBase, kernelSize, initrd, initrdSize)
    ensures r.Done? ==>
      var pmm := r.value;
      && fresh(pmm) && fresh(pmm.bitmap) && pmm.Valid() && pmm.TailUsed()
      && pmm.pageCount == HighestEnd(entries) / 4096 && pmm.lastAllocWord == 0
      && (forall p: nat :: p in pmm.Free() <==> StartsFree(entries, kernelBase, kernelSize, initrd, initrdSize, p))
      && BitmapKept(entries, pmm.Free(), 8 * pmm.bitmap.Length)
      && forall p :: p in pmm.Free() ==> !Meets(p, kernelBase, kernelSize) && !Meets(p, initrd, initrdSize)
  {
    var kernelEnd := (kernelBase + kernelSize + PAGE - 1) / PAGE * PAGE;
    var pageCount, bitmapSize, k := Layout(entries);
    if k == |entries| {
      return Panic;
    }
    var bitmapPhys := entries[k].base;
    var pmm := new PageAllocator(pageCount);
    FreeUsable(entries, pmm);
    MeetsAligned(kernelBase, kernelSize, kernelEnd - kernelBase, pageCount);
    ghost var usable := pmm.Free();
    var s := Reserve(pmm, kernelBase, kernelEnd - kernelBase, bitmapPhys, bitmapSize, initrd, initrdSize);
    if s.Panic? {
      return Panic;
    }
    StartSet(entries, kernelBase, kernelSize, kernelEnd - kernelBase, initrd, initrdSize, usable, pmm.Free());
    r := Done(pmm);
  }

  lemma StartSet(entries: seq<MapEntry>, kernelBase: nat, kernelSize: nat, kernelBytes: nat, initrd: nat, initrdSize: nat,
                 usable: set<nat>, free: set<nat>)
    requires Boots(entries, kernelBase, kernelSize, initrd, initrdSize)
    requires forall p: nat :: Meets(p, kernelBase, kernelBytes) <==> Meets(p, kernelBase, kernelSize)
    requires forall p: nat :: p in usable <==> InUsable(entries, p)
    requires
      var bitmap := entries[FirstRoom(entries, BitmapBytes(entries))].base;
      forall p: nat :: p in free <==>
        && p in usable && !Meets(p, kernelBase, kernelBytes) && !Meets(p, bitmap, BitmapBytes(entries)) && !Meets(p, initrd, initrdSize)
    ensures forall p: nat :: p in free <==> StartsFree(entries, kernelBase, kernelSize, initrd, initrdSize, p)
    ensures BitmapKept(entries, free, BitmapBytes(entries))
  {}

  /** Kernel, bitmap and initrd are taken, in this order. */
  method Reserve(pmm: PageAllocator, kernel: nat, kernelBytes: nat, bitmap: nat, bitmapBytes: nat, initrd: nat, initrdSize: nat)
    returns (r: Outcome<()>)
    requires pmm.Valid() && pmm.TailUsed()
    modifies pmm.bitmap
    ensures pmm.Valid() && pmm.TailUsed()
    ensures r.Done? <==>
      && RangeBelow(kernel, kernelBytes, pmm.pageCount) && RangeBelow(bitmap, bitmapBytes, pmm.pageCount)
      && RangeBelow(initrd, initrdSize, pmm.pageCount)
    ensures r.Done? ==> forall p: nat :: p in pmm.Free() <==>
      && p in old(pmm.Free()) && !Meets(p, kernel, kernelBytes) && !Meets(p, bitmap, bitmapBytes) && !Meets(p, initrd, initrdSize)
  {
    r := pmm.MarkRangeUsed(kernel, kernelBytes);
    if r.Panic? {
      return;
    }
    r := pmm.MarkRangeUsed(bitmap, bitmapBytes);
    if r.Panic? {
      return;
    }
    r := pmm.MarkRangeUsed(initrd, initrdSize);
  }

  /** The loop that frees every usable entry; it cannot panic, for no entry ends past the last page. */
  method FreeUsable(entries: seq<MapEntry>, pmm: PageAllocator)
    requires pmm.Valid() && pmm.TailUsed() && pmm.Free() == {} && pmm.pageCount == PageCount(entries)
    modifies pmm.bitmap
    ensures pmm.Valid() && pmm.TailUsed()
    ensures forall p: nat :: p in pmm.Free() <==> InUsable(entries, p)
  {
    for i := 0 to |entries|
      invariant pmm.Valid() && pmm.TailUsed()
      invariant forall p: nat :: p in pmm.Free() <==> InUsable(entries[..i], p)
    {
      var e := entries[i];
      assert forall x :: x in entries[..i + 1] <==> x in entries[..i] || x == e;
      if e.usable {
        assert e in entries;
        var s := pmm.MarkRangeFree(e.base, e.length);
        assert s.Done?;
      }
    }
    assert entries[..|entries|] == entries;
  }

  /** Rounding the end of a range up to a page changes none of the pages it meets. */
  lemma MeetsAligned(base: nat, length: nat, aligned: nat, n: nat)
    requires base + aligned == (base + length + PAGE - 1) / PAGE * PAGE
    ensures forall p: nat :: Meets(p, base, aligned) <==> Meets(p, base, length)
    ensures RangeBelow(base, aligned, n) <==> RangeBelow(base, length, n)
  {
    assert forall p: nat :: Meets(p, base, aligned) <==> Meets(p, base, length);
  }
}
