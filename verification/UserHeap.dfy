/** The user heap, user/lib/malloc.c, over the byte memory it manages. The kernel side of `mmap`
    is the region that starts at `heapTop`: this process maps memory through `sbrk` only, so its
    chunks follow each other without a hole. */
module UserHeap {
  import opened Machine
  import opened Outcomes
  import opened ByteMemory
  import opened BlockList
  import opened BlockLaws
  import opened HeapView

  /** 64-bit addition. */
  function Add(a: nat, b: nat): (c: nat)
    requires a < WORD_LIMIT && b < WORD_LIMIT
    ensures c < WORD_LIMIT
  {
    if a + b < WORD_LIMIT then a + b else a + b - WORD_LIMIT
  }

  function RoundUp(size: nat): (r: nat)
    requires size < WORD_LIMIT
    ensures r < WORD_LIMIT && r % 8 == 0
    ensures size + 7 < WORD_LIMIT ==> size <= r < size + 8
    ensures size + 7 >= WORD_LIMIT ==> r == 0
  {
    Add(size, 7) / 8 * 8
  }

  lemma RoundedAlready(n: nat)
    requires n < WORD_LIMIT && n % 8 == 0
    ensures RoundUp(n) == n
  {}

  /** Bytes that `mmap` maps for a request of `size` bytes. */
  function MmapBytes(size: nat): (n: nat)
    requires size < WORD_LIMIT
    ensures n % 4096 == 0 && (size + 4095 < WORD_LIMIT ==> size <= n < size + 4096)
  {
    Add(size, 4095) / 4096 * 4096
  }

  /** The block `sbrk` hands out for a request lies inside memory mapped for the heap. */
  predicate Fits(heapPtr: nat, heapEnd: nat, size: nat)
    requires size < WORD_LIMIT && heapPtr < WORD_LIMIT
  {
    var block := HEADER_SIZE + RoundUp(size);
    var total := Add(HEADER_SIZE, RoundUp(size));
    if heapPtr == 0 || Add(heapPtr, total) > heapEnd then block <= MmapBytes(Add(total, 4096))
    else heapPtr + block <= heapEnd
  }

  /** No 64-bit sum on the way wraps. */
  predicate NoWrap(heapPtr: nat, size: nat)
    requires size < WORD_LIMIT
  {
    && size + 7 < WORD_LIMIT
    && (if heapPtr == 0 then HEADER_SIZE + RoundUp(size) + 8191 else heapPtr + HEADER_SIZE + RoundUp(size)) < WORD_LIMIT
  }

  /** A request is served with a block that is big enough and lies in mapped memory exactly
      when no sum wraps. */
  lemma FitsIff(heapPtr: nat, heapEnd: nat, size: nat)
    requires size < WORD_LIMIT && heapEnd < USER_TOP
    requires heapPtr == 0 || HEAP_BASE <= heapPtr <= heapEnd
    ensures RoundUp(size) >= size && Fits(heapPtr, heapEnd, size) <==> NoWrap(heapPtr, size)
  {}

  /** A caller, who cannot see the heap pointer, is safe with any request below 2^63. */
  lemma SmallRequestsFit(heapPtr: nat, size: nat)
    requires size < 0x8000_0000_0000_0000 && heapPtr < USER_TOP
    ensures NoWrap(heapPtr, size)
  {}

  /** An example of the failing family: the largest request rounds to no bytes at all. */
  lemma HugeRequestRoundsToNothing()
    ensures RoundUp(WORD_LIMIT - 1) == 0
  {}

  /** The product of two sizes, in 64 bits. */
  function Product(nmemb: nat, size: nat): (p: nat)
    ensures p < WORD_LIMIT && p <= nmemb * size && (nmemb * size < WORD_LIMIT ==> p == nmemb * size)
  {
    nmemb * size % WORD_LIMIT
  }

  /** A product that wraps without vanishing: `calloc` of 2^63 + 1 members of two bytes asks for two
      bytes, so by its contract what it returns is too small. */
  lemma CallocWraps()
    ensures
      var nmemb, size := 0x8000_0000_0000_0001, 2;
      nmemb < WORD_LIMIT && nmemb * size >= WORD_LIMIT && Product(nmemb, size) == 2
  {}

  /** The current chunk has no room and the machine has too few pages for a new one. */
  predicate OutOfPages(heapPtr: nat, heapEnd: nat, framesLeft: nat, size: nat) {
    && (heapPtr == 0 || heapPtr + size > heapEnd)
    && (size + 4096 < WORD_LIMIT ==> MmapBytes(size + 4096) > framesLeft * 4096)
  }

  /** Where the heap stands: the chunk in use, the end of all chunks, and the pages left. */
  datatype Arena = Arena(ptr: nat, end: nat, top: nat, frames: nat)

  /** The request fits in what is left of the chunk. */
  predicate InChunk(a: Arena, size: nat) {
    a.ptr != 0 && a.ptr + size <= a.end
  }

  /** A request was served at `at`: from the chunk, and nothing else moved; or from a new chunk at the
      top, of which 4096 bytes are left over. */
  ghost predicate Served(a: Arena, size: nat, at: nat, b: Arena) {
    match b
    case Arena(ptr, end, top, frames) =>
      if InChunk(a, size) then at == a.ptr && b == Arena(a.ptr + size, a.end, a.top, a.frames)
      else
        && at == a.top && ptr == at + size && end == at + size + 4096
        && at + size + 4096 <= top < at + size + 8192 && top + frames * 4096 == a.top + a.frames * 4096
  }

  /** A request for `n` bytes was granted at `p`: from the first free block that is large enough, cut to
      size, and nothing else moved; or, when there is none, from a new block at the end of the list. */
  ghost predicate Granted(a: Arena, bs: Blocks, n: nat, p: nat, a': Arena, bs': Blocks) {
    match a'
    case Arena(_, _, _, _) =>
      var i := FirstFit(bs, n);
      if i < |bs| then p == bs[i].Ptr() && a' == a && bs' == SetFree(Trimmed(Coalesced(bs, i), i, n), i, false)
      else p >= HEADER_SIZE && Served(a, HEADER_SIZE + n, p - HEADER_SIZE, a') && bs' == bs + [Block(p - HEADER_SIZE, n, false)]
  }

  lemma PageAligned(a: nat)
    requires a % 4096 == 0
    ensures a % 8 == 0
  {
    assert a == 8 * (512 * (a / 4096));
  }

  lemma SumAligned(a: nat, b: nat)
    requires a % 8 == 0 && b % 8 == 0
    ensures (a + b) % 8 == 0
  {}

  /** `realloc` leaves the block where it is: it is large enough, or becomes so by taking in the free
      blocks behind it. */
  predicate StaysInPlace(bs: Blocks, i: nat, n: nat) {
    i < |bs| && (bs[i].size >= n || Coalesced(bs, i)[i].size >= n)
  }

  /** It does exactly when the block and free blocks right behind it hold enough. */
  lemma InPlaceIff(bs: Blocks, i: nat, n: nat)
    requires i < |bs|
    ensures StaysInPlace(bs, i, n) <==> exists d: nat :: RoomBehind(bs, i, n, d)
  {
    GrowsIff(bs, i, n);
  }

  /** The list it then leaves. */
  function ResizedList(bs: Blocks, i: nat, n: nat): Blocks
    requires i < |bs|
  {
    Trimmed(if bs[i].size >= n then bs else Coalesced(bs, i), i, n)
  }

  class Heap {
    var mem: Mem
    var head: nat
    var heapPtr: nat
    var heapEnd: nat
    var heapTop: nat        // where the kernel's next mapping starts
    var framesLeft: nat     // pages the machine can still map
    const fill: nat -> byte // what a fresh page holds
    ghost var blocks: Blocks
    ghost var view: View    // what the client holds

    ghost function Brk(): nat
      reads this`heapPtr
    {
      if heapPtr == 0 then HEAP_BASE else heapPtr
    }

    ghost function Here(): Arena
      reads this`heapPtr, this`heapEnd, this`heapTop, this`framesLeft
    {
      Arena(heapPtr, heapEnd, heapTop, framesLeft)
    }

    /** The block list is in place. */
    ghost predicate Listed()
      reads this`mem, this`blocks, this`head, this`heapPtr
    {
      Good(mem, blocks, HEAP_BASE, Brk()) && head == HeadAddr(blocks)
    }

    ghost predicate Valid()
      reads this
    {
      InSpace() && Shows(mem, blocks, view)
    }

    /** The list and the mapped region fit together. */
    ghost predicate InSpace()
      reads this`mem, this`blocks, this`head, this`heapPtr, this`heapEnd, this`heapTop, this`framesLeft
    {
      match Here()
      case Arena(ptr, end, top, frames) =>
        && Listed()
        && (forall k: nat :: k in mem <==> HEAP_BASE <= k < top)
        && (ptr == 0 ==> end == 0 && blocks == [])
        && (ptr != 0 ==> HEAP_BASE <= ptr <= end && ptr % 8 == 0)
        && end <= top && HEAP_BASE <= top && top % 4096 == 0
        && top + frames * 4096 < USER_TOP
    }

    constructor (fill: nat -> byte, frames: nat)
      requires HEAP_BASE + frames * 4096 < USER_TOP
      ensures Valid() && view == map[] && framesLeft == frames
    {
      mem, head, heapPtr, heapEnd, heapTop, framesLeft := map[], 0, 0, 0, HEAP_BASE, frames;
      this.fill := fill;
      blocks, view := [], map[];
    }

    /** A store to a mapped word; every store of the allocator goes through these two. */
    method WriteWord(a: nat, v: nat)
      requires Mapped(mem, a, 8) && v < WORD_LIMIT
      modifies this`mem
      ensures WordSet(old(mem), a, v, mem)
    {
      mem := SetWord(mem, a, v);
    }

    method WriteByte(a: nat, v: byte)
      requires a in mem
      modifies this`mem
      ensures ByteSet(old(mem), a, v, mem)
    {
      mem := SetByte(mem, a, v);
    }

    /** All three fields of a header. */
    method WriteHeader(blk: nat, size: nat, free: bool, next: nat)
      requires Mapped(mem, blk, HEADER_SIZE) && size < WORD_LIMIT && next < WORD_LIMIT
      modifies this`mem
      ensures HeaderWritten(old(mem), Block(blk, size, free), next, mem)
    {
      ghost var m := mem;
      WriteWord(blk, size);
      ghost var m1 := mem;
      WriteByte(blk + 8, if free then 1 else 0);
      ghost var m2 := mem;
      WriteWord(blk + 16, next);
      HeaderSet(m, m1, m2, mem, Block(blk, size, free), next);
    }

    /** The size and next fields. */
    method WriteSizeNext(blk: nat, size: nat, next: nat)
      requires Mapped(mem, blk, HEADER_SIZE) && size < WORD_LIMIT && next < WORD_LIMIT
      modifies this`mem
      ensures HeaderWritten(old(mem), Block(blk, size, old(mem[blk + 8] != 0)), next, mem)
    {
      ghost var m := mem;
      WriteWord(blk, size);
      ghost var m1 := mem;
      WriteWord(blk + 16, next);
      SizeNextSet(m, m1, mem, Block(blk, size, m[blk + 8] != 0), next);
    }

    /** The header fields of a block in the list. */
    method ReadHeader(blk: nat, ghost i: nat) returns (size: nat, free: bool, next: nat)
      requires Listed() && i < |blocks| && blocks[i].addr == blk
      ensures size == blocks[i].size && free == blocks[i].free && next == NextAddr(blocks, i)
      ensures next != 0 <==> i + 1 < |blocks|
      ensures Mapped(mem, blk, HEADER_SIZE + size) && (mem[blk + 8] != 0) == free
      ensures next < WORD_LIMIT && HEAP_BASE <= blk && blk + HEADER_SIZE + size <= Brk()
      ensures i + 1 < |blocks| ==> size + HEADER_SIZE + blocks[i + 1].size < WORD_LIMIT
    {
      Fields(mem, blocks, HEAP_BASE, Brk(), i);
      size, free, next := Word(mem, blk), mem[blk + 8] != 0, Word(mem, blk + 16);
    }

    /** One iteration of `coalesce`. */
    method MergeNext(blk: nat, ghost i: nat)
      requires Listed() && i + 1 < |blocks| && blocks[i].addr == blk && blocks[i + 1].free
      modifies this`mem, this`blocks
      ensures Listed() && mem.Keys == old(mem.Keys) && blocks == Merge(old(blocks), i)
      ensures SameElse(old(mem), old(blocks), mem, blocks, blk + HEADER_SIZE)
      ensures SameOutside(old(mem), mem, blk, blk + HEADER_SIZE)
    {
      ghost var m, bs := mem, blocks;
      var size, _, next := ReadHeader(blk, i);
      var nextSize, _, afterNext := ReadHeader(next, i + 1);
      WriteSizeNext(blk, size + HEADER_SIZE + nextSize, afterNext);
      MergeStep(m, bs, HEAP_BASE, Brk(), i, Block(blk, size + HEADER_SIZE + nextSize, bs[i].free), mem);
      blocks := Merge(blocks, i);
    }

    /** Merges a block with the free blocks that follow it. */
    method Coalesce(blk: nat, ghost i: nat)
      requires Listed() && i < |blocks| && blocks[i].addr == blk
      modifies this`mem, this`blocks
      ensures Listed() && mem.Keys == old(mem.Keys) && blocks == Coalesced(old(blocks), i)
      ensures SameElse(old(mem), old(blocks), mem, blocks, blk + HEADER_SIZE)
      ensures SameOutside(old(mem), mem, blk, blk + HEADER_SIZE)
    {
      var again := NextIsFree(blk, i);
      while again
        invariant Listed() && mem.Keys == old(mem.Keys) && i < |blocks| && blocks[i].addr == blk
        invariant again <==> i + 1 < |blocks| && blocks[i + 1].free
        invariant Coalesced(blocks, i) == Coalesced(old(blocks), i)
        invariant SameElse(old(mem), old(blocks), mem, blocks, blk + HEADER_SIZE)
        invariant SameOutside(old(mem), mem, blk, blk + HEADER_SIZE)
        decreases |blocks|
      {
        ghost var m, bs := mem, blocks;
        MergeNext(blk, i);
        SameElseTrans(old(mem), old(blocks), m, bs, mem, blocks, blk + HEADER_SIZE);
        SameOutsideTrans(old(mem), m, mem, blk, blk + HEADER_SIZE);
        again := NextIsFree(blk, i);
      }
    }

    /** The loop test of `coalesce`. */
    method NextIsFree(blk: nat, ghost i: nat) returns (v: bool)
      requires Listed() && i < |blocks| && blocks[i].addr == blk
      ensures v <==> i + 1 < |blocks| && blocks[i + 1].free
    {
      var _, _, next := ReadHeader(blk, i);
      if next == 0 {
        return false;
      }
      var _, free, _ := ReadHeader(next, i + 1);
      v := free;
    }

    /** `split`. */
    method SplitBlock(blk: nat, size: nat, ghost i: nat)
      requires Listed() && i < |blocks| && blocks[i].addr == blk && size % 8 == 0
      modifies this`mem, this`blocks
      ensures Listed() && mem.Keys == old(mem.Keys) && blocks == Trimmed(old(blocks), i, size)
      ensures SameElse(old(mem), old(blocks), mem, blocks, blk + HEADER_SIZE)
      ensures SamePayload(old(mem), mem, blocks[i])
    {
      var have, _, next := ReadHeader(blk, i);
      if have < size + MIN_SPLIT {
        SameElseRefl(mem, blocks, blk + HEADER_SIZE);
        return;
      }
      CutBlock(blk, size, have, next, i);
    }

    /** The writes of `split`. */
    method WriteSplit(blk: nat, size: nat, have: nat, next: nat, ghost rest: Block, ghost own: Block)
      requires Mapped(mem, blk, HEADER_SIZE + have) && blk + HEADER_SIZE + have < WORD_LIMIT
      requires size + MIN_SPLIT <= have && next < WORD_LIMIT
      requires rest == Block(blk + HEADER_SIZE + size, have - size - HEADER_SIZE, true) && own == Block(blk, size, mem[blk + 8] != 0)
      modifies this`mem
      ensures SplitWritten(old(mem), rest, own, next, mem)
    {
      var newBlk := blk + HEADER_SIZE + size;
      WriteHeader(newBlk, have - size - HEADER_SIZE, true, next);
      ghost var m1 := mem;
      assert SameAt(old(mem), m1, blk + 8);
      WriteSizeNext(blk, size, newBlk);
      assert HeaderWritten(old(mem), rest, next, m1) && HeaderWritten(m1, own, rest.addr, mem);
    }

    method CutBlock(blk: nat, size: nat, have: nat, next: nat, ghost i: nat)
      requires Listed() && i < |blocks| && blocks[i].addr == blk && size % 8 == 0
      requires have == blocks[i].size && next == NextAddr(blocks, i) < WORD_LIMIT && size + MIN_SPLIT <= have
      requires Mapped(mem, blk, HEADER_SIZE + have) && blk + HEADER_SIZE + have < WORD_LIMIT
      requires (mem[blk + 8] != 0) == blocks[i].free
      modifies this`mem, this`blocks
      ensures Listed() && mem.Keys == old(mem.Keys) && blocks == Split(old(blocks), i, size)
      ensures SameElse(old(mem), old(blocks), mem, blocks, blk + HEADER_SIZE)
      ensures SamePayload(old(mem), mem, blocks[i])
    {
      ghost var m, bs := mem, blocks;
      ghost var rest, own := Block(blk + HEADER_SIZE + size, have - size - HEADER_SIZE, true), Block(blk, size, bs[i].free);
      WriteSplit(blk, size, have, next, rest, own);
      blocks := Split(blocks, i, size);
      SplitWrites(m, bs, HEAP_BASE, Brk(), i, size, rest, own, mem, blocks, blk + HEADER_SIZE);
    }

    /** `blk->free = free`. */
    method SetFlag(blk: nat, free: bool, ghost i: nat)
      requires Listed() && i < |blocks| && blocks[i].addr == blk
      modifies this`mem, this`blocks
      ensures Listed() && mem.Keys == old(mem.Keys) && blocks == SetFree(old(blocks), i, free)
      ensures SameElse(old(mem), old(blocks), mem, blocks, blk + HEADER_SIZE)
      ensures SameOutside(old(mem), mem, blk, blk + HEADER_SIZE)
    {
      ghost var m, bs := mem, blocks;
      Fields(mem, blocks, HEAP_BASE, Brk(), i);
      var v: byte := if free then 1 else 0;
      WriteByte(blk + 8, v);
      blocks := SetFree(blocks, i, free);
      FlagWritten(m, bs, HEAP_BASE, Brk(), i, free, v, mem, blocks, blk + HEADER_SIZE);
    }

    /** The three edits of lines 115-120. The size test after `coalesce` always holds. */
    method TakeBlock(cur: nat, size: nat, ghost i: nat)
      requires Listed() && i < |blocks| && blocks[i].addr == cur && blocks[i].size >= size && size % 8 == 0
      modifies this`mem, this`blocks
      ensures Listed() && mem.Keys == old(mem.Keys)
      ensures blocks == SetFree(Trimmed(Coalesced(old(blocks), i), i, size), i, false)
      ensures SameElse(old(mem), old(blocks), mem, blocks, cur + HEADER_SIZE)
    {
      ghost var m, bs, p := mem, blocks, cur + HEADER_SIZE;
      Coalesce(cur, i);
      ghost var m1, bs1 := mem, blocks;
      SplitBlock(cur, size, i);
      SameElseTrans(m, bs, m1, bs1, mem, blocks, p);
      ghost var m2, bs2 := mem, blocks;
      SetFlag(cur, false, i);
      SameElseTrans(m, bs, m2, bs2, mem, blocks, p);
    }

    /** The found block of `malloc` becomes the client's. */
    method Take(cur: nat, size: nat, ghost i: nat)
      requires Valid() && i < |blocks| && blocks[i].addr == cur && blocks[i].free && blocks[i].size >= size && size % 8 == 0
      modifies this`mem, this`blocks, this`view
      ensures Valid() && blocks == SetFree(Trimmed(Coalesced(old(blocks), i), i, size), i, false)
      ensures Allocated(old(view), view, cur + HEADER_SIZE, size) && |view[cur + HEADER_SIZE]| < size + 40
    {
      ghost var m, bs, p := mem, blocks, cur + HEADER_SIZE;
      TakeBlock(cur, size, i);
      TrimmedLaw(Coalesced(bs, i), i, size);
      TakenShown(m, bs, view, HEAP_BASE, Brk(), mem, blocks, i, size);
      view := view[p := Bytes(mem, p, blocks[i].size)];
    }

    /** The kernel's `sys_mmap(0, size)`: whole pages appended at the top, or a panic when the
        machine is out of them. */
    method Mmap(size: nat) returns (r: Outcome<nat>)
      requires size + 4095 < WORD_LIMIT
      requires HEAP_BASE <= heapTop && heapTop % 4096 == 0 && heapTop + framesLeft * 4096 < USER_TOP
      modifies this`mem, this`heapTop, this`framesLeft
      ensures r.Panic? <==> MmapBytes(size) > old(framesLeft) * 4096
      ensures r.Panic? ==> mem == old(mem) && heapTop == old(heapTop) && framesLeft == old(framesLeft)
      ensures r.Done? ==> r.value == old(heapTop) && heapTop == old(heapTop) + MmapBytes(size) >= old(heapTop) + size
      ensures heapTop % 4096 == 0 && heapTop + framesLeft * 4096 == old(heapTop + framesLeft * 4096)
      ensures old(forall k: nat :: k in mem <==> HEAP_BASE <= k < heapTop) ==>
        forall k: nat :: k in mem <==> HEAP_BASE <= k < heapTop
      ensures forall k: nat :: k in old(mem) && HEAP_BASE <= k < old(heapTop) ==> k in mem && mem[k] == old(mem)[k]
    {
      var bytes := MmapBytes(size);
      if bytes > framesLeft * 4096 {
        return Panic;
      }
      var before, f := mem, fill;
      r := Done(heapTop);
      heapTop := heapTop + bytes;
      framesLeft := framesLeft - bytes / 4096;
      mem := map k: nat | HEAP_BASE <= k < heapTop :: if k in before then before[k] else f(k);
    }

    /** `sbrk`: the tail of the old chunk is abandoned when the request does not fit in it. */
    method Sbrk(size: nat) returns (r: Outcome<nat>)
      requires InSpace() && size % 8 == 0 && size + 8191 < WORD_LIMIT && heapPtr + size < WORD_LIMIT
      modifies this`mem, this`heapPtr, this`heapEnd, this`heapTop, this`framesLeft
      ensures r.Panic? <==> OutOfPages(old(heapPtr), old(heapEnd), old(framesLeft), size)
      ensures r.Panic? ==> InSpace() && mem == old(mem) && Here() == old(Here())
      ensures r.Done? ==> Served(old(Here()), size, r.value, Here())
      ensures r.Done? ==> InSpace() && old(Brk()) <= r.value && r.value % 8 == 0 && heapPtr == r.value + size
      ensures r.Done? ==> Good(mem, blocks, HEAP_BASE, r.value)
      ensures r.Done? ==> forall p: nat :: SameElse(old(mem), blocks, mem, blocks, p)
    {
      ghost var m, brk := mem, Brk();
      if heapPtr == 0 || heapPtr + size > heapEnd {
        var page := Mmap(size + 4096);
        if page.Panic? {
          return Panic;
        }
        PageAligned(page.value);
        heapPtr := page.value;
        heapEnd := page.value + size + 4096;
      }
      r := Done(heapPtr);
      SumAligned(heapPtr, size);
      heapPtr := heapPtr + size;
      GoodGrows(m, blocks, HEAP_BASE, brk, mem, heapPtr, 0);
      forall p: nat ensures SameElse(m, blocks, mem, blocks, p) {
        GoodGrows(m, blocks, HEAP_BASE, brk, mem, r.value, p);
      }
      GoodGrows(m, blocks, HEAP_BASE, brk, mem, r.value, 0);
    }

    /** The walk to the last block. */
    method TailOf() returns (t: nat)
      requires Listed() && blocks != []
      ensures t == blocks[|blocks| - 1].addr
    {
      ghost var i := 0;
      t := head;
      var _, _, next := ReadHeader(t, i);
      while next != 0
        invariant i < |blocks| && t == blocks[i].addr && next == NextAddr(blocks, i)
        invariant next != 0 <==> i + 1 < |blocks|
        decreases |blocks| - i
      {
        t, i := next, i + 1;
        var _, _, after := ReadHeader(t, i);
        next := after;
      }
    }

    /** The link half of `extend_heap`. */
    method LinkLast(blk: nat, ghost b: Block, ghost m: Mem)
      requires b.addr == blk && 0 < blk < WORD_LIMIT && Listed()
      requires Good(m, blocks, HEAP_BASE, blk) && Placed(b, blk, Brk()) && HEAP_BASE <= blk <= Brk()
      requires forall k: nat :: HEAP_BASE <= k < Brk() ==> k in m
      requires HeaderWritten(m, b, 0, mem)
      modifies this`mem, this`head, this`blocks
      ensures Listed() && mem.Keys == m.Keys && blocks == old(blocks) + [b]
      ensures SameElse(m, old(blocks), mem, blocks, b.Ptr())
    {
      ghost var m1, bs := mem, blocks;
      assert bs != [] ==> PlacedAt(bs, HEAP_BASE, Brk(), 0);
      if head == 0 {
        head := blk;
      } else {
        var tail := TailOf();
        Extent(m1, bs, HEAP_BASE, Brk(), |bs| - 1);
        WriteWord(tail + 16, blk);
      }
      AppendStep(m, bs, b, HEAP_BASE, blk, Brk(), m1, mem);
      blocks := blocks + [b];
    }

    /** Writes the header of a new last block and links it. */
    method AppendBlock(blk: nat, size: nat)
      requires Listed() && Good(mem, blocks, HEAP_BASE, blk) && HEAP_BASE <= blk && blk + HEADER_SIZE + size == Brk() < WORD_LIMIT
      requires blk % 8 == 0 && size % 8 == 0
      modifies this`mem, this`head, this`blocks
      ensures Listed() && mem.Keys == old(mem.Keys) && blocks == old(blocks) + [Block(blk, size, false)]
      ensures SameElse(old(mem), old(blocks), mem, blocks, blk + HEADER_SIZE)
    {
      ghost var m, bs := mem, blocks;
      WriteHeader(blk, size, false, 0);
      GoodGrows(m, bs, HEAP_BASE, blk, mem, Brk(), 0);
      LinkLast(blk, Block(blk, size, false), m);
    }

    /** `extend_heap`: a new live block after all others. */
    method ExtendHeap(size: nat) returns (r: Outcome<nat>)
      requires InSpace() && size % 8 == 0 && HEADER_SIZE + size + 8191 < WORD_LIMIT && heapPtr + HEADER_SIZE + size < WORD_LIMIT
      modifies this`mem, this`head, this`blocks, this`heapPtr, this`heapEnd, this`heapTop, this`framesLeft
      ensures r.Panic? <==> OutOfPages(old(heapPtr), old(heapEnd), old(framesLeft), HEADER_SIZE + size)
      ensures InSpace() && (r.Panic? ==> mem == old(mem) && blocks == old(blocks) && Here() == old(Here()))
      ensures r.Done? ==> Served(old(Here()), HEADER_SIZE + size, r.value, Here())
      ensures r.Done? ==> r.value % 8 == 0 && old(Brk()) <= r.value && blocks == old(blocks) + [Block(r.value, size, false)]
      ensures r.Done? ==> SameElse(old(mem), old(blocks), mem, blocks, r.value + HEADER_SIZE)
    {
      ghost var m0, bs := mem, blocks;
      r := Sbrk(HEADER_SIZE + size);
      if r.Done? {
        ghost var m := mem;
        AppendBlock(r.value, size);
        SameElseTrans(m0, bs, m, bs, mem, blocks, r.value + HEADER_SIZE);
      }
    }

    /** The last lines of `malloc`, up to the address of the block. */
    method FromNewBlock(size: nat) returns (blk: Outcome<nat>)
      requires Valid() && size % 8 == 0 && HEADER_SIZE + size + 8191 < WORD_LIMIT && heapPtr + HEADER_SIZE + size < WORD_LIMIT
      modifies this
      ensures blk.Panic? <==> OutOfPages(old(heapPtr), old(heapEnd), old(framesLeft), HEADER_SIZE + size)
      ensures Valid() && (blk.Panic? ==> view == old(view) && blocks == old(blocks) && Here() == old(Here()))
      ensures blk.Done? ==> Allocated(old(view), view, blk.value + HEADER_SIZE, size) && |view[blk.value + HEADER_SIZE]| == size
      ensures blk.Done? ==> Served(old(Here()), HEADER_SIZE + size, blk.value, Here())
      ensures blk.Done? ==> blocks == old(blocks) + [Block(blk.value, size, false)]
    {
      ghost var m, bs, brk := mem, blocks, Brk();
      blk := ExtendHeap(size);
      if blk.Done? {
        ghost var p := blk.value + HEADER_SIZE;
        SumAligned(blk.value, HEADER_SIZE);
        NewBlockShown(m, bs, view, HEAP_BASE, brk, mem, blocks, Brk(), p, size);
        view := view[p := Bytes(mem, p, size)];
      }
    }

    /** The search loop of `malloc`: the first free block with room, or 0. */
    method FindFit(n: nat) returns (cur: nat, ghost i: nat)
      requires Listed()
      ensures i == FirstFit(blocks, n)
      ensures if i < |blocks| then cur == blocks[i].addr && cur != 0 else cur == 0
    {
      i, cur := 0, head;
      assert blocks != [] ==> PlacedAt(blocks, HEAP_BASE, Brk(), 0);
      while cur != 0
        invariant i <= |blocks| && cur == (if i < |blocks| then blocks[i].addr else 0)
        invariant cur != 0 <==> i < |blocks|
        invariant forall j :: 0 <= j < i ==> !(blocks[j].free && blocks[j].size >= n)
        decreases |blocks| - i
      {
        var have, free, next := ReadHeader(cur, i);
        if free && have >= n {
          break;
        }
        cur, i := next, i + 1;
      }
      assert i < |blocks| ==> blocks[i].free && blocks[i].size >= n;
      ghost var first := FirstFit(blocks, n);
      assert first < |blocks| ==> blocks[first].free && blocks[first].size >= n;
    }

    /** `malloc`. Served from the first free block that is large enough, else by extending the
        heap; every other live pointer keeps its bytes. */
    method Malloc(size: nat) returns (r: Outcome<nat>)
      requires Valid() && size < WORD_LIMIT && NoWrap(heapPtr, size)
      modifies this
      ensures size == 0 ==> r == Done(0)
      ensures r.Panic? || r == Done(0) ==> Valid() && view == old(view)
      ensures size > 0 && r.Done? ==> r.value != 0 && Allocated(old(view), view, r.value, size) && Valid()
      ensures r.Done? && r.value != 0 ==> |view[r.value]| < RoundUp(size) + 40
      ensures r.Panic? || r == Done(0) ==> blocks == old(blocks) && Here() == old(Here())
      ensures size > 0 && r.Done? ==> Granted(old(Here()), old(blocks), RoundUp(size), r.value, Here(), blocks)
      ensures r.Panic? <==>
        && size > 0 && FirstFit(old(blocks), RoundUp(size)) == |old(blocks)|
        && OutOfPages(old(heapPtr), old(heapEnd), old(framesLeft), HEADER_SIZE + RoundUp(size))
    {
      if size == 0 {
        return Done(0);
      }
      r := Grant(RoundUp(size));
    }

    /** The rest of `malloc`, for a rounded size. */
    method Grant(n: nat) returns (r: Outcome<nat>)
      requires Valid() && n % 8 == 0 && HEADER_SIZE + n + 8191 < WORD_LIMIT && heapPtr + HEADER_SIZE + n < WORD_LIMIT
      modifies this
      ensures Valid() && (r.Panic? ==> view == old(view) && blocks == old(blocks) && Here() == old(Here()))
      ensures r.Done? ==> r.value != 0 && Allocated(old(view), view, r.value, n) && |view[r.value]| < n + 40
      ensures r.Done? ==> Granted(old(Here()), old(blocks), n, r.value, Here(), blocks)
      ensures r.Panic? <==>
        && FirstFit(old(blocks), n) == |old(blocks)|
        && OutOfPages(old(heapPtr), old(heapEnd), old(framesLeft), HEADER_SIZE + n)
    {
      var cur, i := FindFit(n);
      if cur != 0 {
        assert cur + HEADER_SIZE == blocks[FirstFit(blocks, n)].Ptr();
        Take(cur, n, i);
        return Done(cur + HEADER_SIZE);
      }
      var blk := FromNewBlock(n);
      r := if blk.Panic? then Panic else Done(blk.value + HEADER_SIZE);
    }

    /** `free`. */
    method Free(ptr: nat)
      requires Valid() && (ptr == 0 || ptr in view)
      modifies this`mem, this`blocks, this`view
      ensures Valid() && view == old(view) - {ptr}
      ensures ptr == 0 ==> blocks == old(blocks)
      ensures ptr != 0 ==>
        var i := PtrIndex(old(blocks), ptr);
        i < |old(blocks)| && blocks == Coalesced(SetFree(old(blocks), i, true), i)
    {
      if ptr == 0 {
        NotShown(mem, blocks, view, HEAP_BASE, Brk(), 0);
        assert view - {0} == view;
        return;
      }
      ghost var m, bs := mem, blocks;
      ghost var i := BlockOf(mem, blocks, view, ptr);
      OnePtr(blocks, HEAP_BASE, Brk(), i);
      var blk := ptr - HEADER_SIZE;
      SetFlag(blk, true, i);
      ghost var m1, bs1 := mem, blocks;
      Coalesce(blk, i);
      SameElseTrans(m, bs, m1, bs1, mem, blocks, ptr);
      ShowsDrop(m, bs, view, mem, blocks, HEAP_BASE, Brk(), i, ptr);
      view := view - {ptr};
    }

    /** A client's store into its own block. */
    method Poke(p: nat, k: nat, v: byte)
      requires Valid() && p in view && k < |view[p]|
      modifies this`mem, this`view
      ensures Valid() && view == old(view)[p := Patched(old(view)[p], k, v)]
    {
      ghost var m := mem;
      ghost var i := BlockOf(m, blocks, view, p);
      Extent(m, blocks, HEAP_BASE, Brk(), i);
      WriteByte(p + k, v);
      PayloadStep(m, blocks, HEAP_BASE, Brk(), i, mem);
      ShowsPut(m, blocks, view, mem, blocks, HEAP_BASE, Brk(), i, p);
      BytesPoke(m, mem, p, blocks[i].size, k, v);
      view := view[p := Patched(view[p], k, v)];
    }

    /** A client's load from its own block. */
    method Peek(p: nat, k: nat) returns (v: byte)
      requires Valid() && p in view && k < |view[p]|
      ensures v == view[p][k]
    {
      ghost var i := BlockOf(mem, blocks, view, p);
      Extent(mem, blocks, HEAP_BASE, Brk(), i);
      v := mem[p + k];
    }

    /** `split` applied to a live block. */
    method TrimLive(p: nat, size: nat, ghost i: nat)
      requires Valid() && p in view && size % 8 == 0 && size <= |view[p]|
      requires i < |blocks| && blocks[i] == Block(p - HEADER_SIZE, |view[p]|, false) && p >= HEADER_SIZE
      modifies this`mem, this`blocks, this`view
      ensures Valid() && Resized(old(view), view, p, size) && blocks == Trimmed(old(blocks), i, size)
    {
      ghost var m, bs := mem, blocks;
      ghost var j := BlockOf(mem, blocks, view, p);
      SplitBlock(p - HEADER_SIZE, size, i);
      ShowsPut(m, bs, view, mem, blocks, HEAP_BASE, Brk(), i, p);
      BytesPrefix(m, mem, p, bs[i].size, blocks[i].size, size);
      view := view[p := Bytes(mem, p, blocks[i].size)];
    }

    /** `coalesce` applied to a live block. */
    method GrowLive(p: nat, ghost i: nat)
      requires Valid() && p in view
      requires i < |blocks| && blocks[i] == Block(p - HEADER_SIZE, |view[p]|, false) && p >= HEADER_SIZE
      modifies this`mem, this`blocks, this`view
      ensures Valid() && Resized(old(view), view, p, |old(view)[p]|)
      ensures blocks == Coalesced(old(blocks), i) && blocks[i] == Block(p - HEADER_SIZE, |view[p]|, false)
    {
      ghost var m, bs := mem, blocks;
      ghost var j := BlockOf(mem, blocks, view, p);
      Coalesce(p - HEADER_SIZE, i);
      ShowsPut(m, bs, view, mem, blocks, HEAP_BASE, Brk(), i, p);
      BytesPrefix(m, mem, p, bs[i].size, blocks[i].size, bs[i].size);
      view := view[p := Bytes(mem, p, blocks[i].size)];
    }

    /** The byte loop of `realloc`. */
    method CopyBytes(dst: nat, src: nat, n: nat)
      requires Valid() && dst in view && src in view && dst != src && n <= |view[dst]| && n <= |view[src]|
      modifies this`mem, this`view
      ensures Valid() && dst in view && |view[dst]| == |old(view)[dst]| && view == old(view)[dst := view[dst]]
      ensures view[dst][..n] == old(view)[src][..n]
    {
      var i := 0;
      while i < n
        invariant 0 <= i <= n
        invariant Valid() && dst in view && |view[dst]| == |old(view)[dst]| && view == old(view)[dst := view[dst]]
        invariant view[dst][..i] == old(view)[src][..i]
      {
        var b := Peek(src, i);
        Poke(dst, i, b);
        i := i + 1;
      }
    }

    /** `realloc` of a live pointer to a rounded size, lines 158-188: in place when the block is or
        becomes large enough, else by moving. */
    method ReallocLive(ptr: nat, n: nat, ghost i: nat) returns (r: Outcome<nat>)
      requires Valid() && ptr in view && ptr >= HEADER_SIZE && 0 < n < WORD_LIMIT && n % 8 == 0 && NoWrap(heapPtr, n)
      requires i < |blocks| && blocks[i] == Block(ptr - HEADER_SIZE, |view[ptr]|, false)
      modifies this
      ensures r.Done? ==> Valid() && r.value != 0 && Reallocated(old(view), view, ptr, r.value, n)
      ensures StaysInPlace(old(blocks), i, n) ==> r == Done(ptr) && blocks == ResizedList(old(blocks), i, n) && Here() == old(Here())
      ensures !StaysInPlace(old(blocks), i, n) && r.Done? ==> r.value != ptr
      ensures r.Panic? <==>
        && !StaysInPlace(old(blocks), i, n) && FirstFit(Coalesced(old(blocks), i), n) == |Coalesced(old(blocks), i)|
        && OutOfPages(old(heapPtr), old(heapEnd), old(framesLeft), HEADER_SIZE + n)
    {
      Extent(mem, blocks, HEAP_BASE, Brk(), i);
      assert PlacedAt(blocks, HEAP_BASE, Brk(), i);
      SumAligned(ptr - HEADER_SIZE, HEADER_SIZE);
      var have, _, _ := ReadHeader(ptr - HEADER_SIZE, i);
      if have >= n {
        TrimLive(ptr, n, i);
        InPlace(old(view), view, ptr, n, n);
        return Done(ptr);
      }
      GrowLive(ptr, i);
      ghost var grown := view;
      var more, _, _ := ReadHeader(ptr - HEADER_SIZE, i);
      if more >= n {
        TrimLive(ptr, n, i);
        ResizedTwice(old(view), grown, view, ptr, have, n);
        InPlace(old(view), view, ptr, have, n);
        return Done(ptr);
      }
      r := MoveLive(ptr, n);
      if r.Done? {
        assert Reallocated(grown, view, ptr, r.value, n);
        ReallocatedGrown(old(view), grown, view, ptr, r.value, n);
      }
    }

    /** Lines 176-188: allocate, copy, free. */
    method MoveLive(ptr: nat, n: nat) returns (r: Outcome<nat>)
      requires Valid() && ptr in view && 0 < n < WORD_LIMIT && n % 8 == 0 && NoWrap(heapPtr, n)
      modifies this
      ensures r.Done? ==> Valid() && r.value != 0 && r.value != ptr && Reallocated(old(view), view, ptr, r.value, n)
      ensures r.Panic? <==>
        && FirstFit(old(blocks), n) == |old(blocks)|
        && OutOfPages(old(heapPtr), old(heapEnd), old(framesLeft), HEADER_SIZE + n)
    {
      RoundedAlready(n);
      r := Malloc(n);
      if r.Done? {
        CopyAndFree(ptr, r.value, n, old(view));
      }
    }

    /** The bytes both blocks hold go to the new one, and the old one is freed. */
    method CopyAndFree(ptr: nat, q: nat, n: nat, ghost before: View)
      requires Valid() && ptr in before && Allocated(before, view, q, n)
      modifies this`mem, this`blocks, this`view
      ensures Valid() && q != ptr && Reallocated(before, view, ptr, q, n)
    {
      ghost var made := view;
      var copy := CopySize(ptr, n);
      CopyBytes(q, ptr, copy);
      ghost var copied := view;
      Free(ptr);
      MovedAway(before, made, copied, ptr, q, copy, n);
    }

    /** The smaller of the block's size and the request. */
    method CopySize(ptr: nat, n: nat) returns (copy: nat)
      requires Valid() && ptr in view
      ensures copy == if |view[ptr]| < n then |view[ptr]| else n
    {
      ghost var i := BlockOf(mem, blocks, view, ptr);
      var have, _, _ := ReadHeader(ptr - HEADER_SIZE, i);
      copy := if have < n then have else n;
    }

    /** `realloc`. */
    method Realloc(ptr: nat, size: nat) returns (r: Outcome<nat>)
      requires Valid() && (ptr == 0 || ptr in view) && size < WORD_LIMIT && NoWrap(heapPtr, size)
      modifies this
      ensures r.Done? ==> Valid()
      ensures ptr == 0 && size > 0 && r.Done? ==> r.value != 0 && Allocated(old(view), view, r.value, size)
      ensures size == 0 ==> r == Done(0) && view == old(view) - {ptr}
      ensures ptr != 0 && size > 0 && r.Done? ==> r.value != 0 && Reallocated(old(view), view, ptr, r.value, size)
      ensures ptr != 0 && size > 0 ==>
        var i, n := PtrIndex(old(blocks), ptr), RoundUp(size);
        && i < |old(blocks)| && (r.Done? ==> (r.value == ptr <==> StaysInPlace(old(blocks), i, n)))
        && (StaysInPlace(old(blocks), i, n) ==> blocks == ResizedList(old(blocks), i, n) && Here() == old(Here()))
        && (r.Panic? <==>
              && !StaysInPlace(old(blocks), i, n) && FirstFit(Coalesced(old(blocks), i), n) == |Coalesced(old(blocks), i)|
              && OutOfPages(old(heapPtr), old(heapEnd), old(framesLeft), HEADER_SIZE + n))
      ensures r.Panic? ==> OutOfPages(old(heapPtr), old(heapEnd), old(framesLeft), HEADER_SIZE + RoundUp(size))
    {
      if ptr == 0 {
        NotShown(mem, blocks, view, HEAP_BASE, Brk(), 0);
        assert view - {0} == view;
        r := Malloc(size);
        return;
      }
      if size == 0 {
        Free(ptr);
        return Done(0);
      }
      var n := RoundUp(size);
      ghost var i := BlockOf(mem, blocks, view, ptr);
      OnePtr(blocks, HEAP_BASE, Brk(), i);
      r := ReallocLive(ptr, n, i);
    }

    /** `calloc`: the product is taken modulo 2^64, so the block holds all members exactly when the
        product fits in 64 bits. */
    method Calloc(nmemb: nat, size: nat) returns (r: Outcome<nat>)
      requires Valid() && NoWrap(heapPtr, Product(nmemb, size))
      modifies this
      ensures r.Done? ==> Valid()
      ensures Product(nmemb, size) == 0 ==> r == Done(0)
      ensures Product(nmemb, size) > 0 ==> r != Done(0)
      ensures r == Done(0) ==> view == old(view)
      ensures r.Done? && r.value != 0 ==> Allocated(old(view), view, r.value, Product(nmemb, size))
      ensures r.Done? && r.value != 0 ==> forall k :: 0 <= k < Product(nmemb, size) ==> view[r.value][k] == 0
      ensures r.Done? && r.value != 0 ==> (|view[r.value]| >= nmemb * size <==> nmemb * size < WORD_LIMIT)
      ensures r.Panic? <==>
        && Product(nmemb, size) > 0 && FirstFit(old(blocks), RoundUp(Product(nmemb, size))) == |old(blocks)|
        && OutOfPages(old(heapPtr), old(heapEnd), old(framesLeft), HEADER_SIZE + RoundUp(Product(nmemb, size)))
    {
      r := CallocBytes(Product(nmemb, size));
    }

    /** A cleared block of a given size. */
    method CallocBytes(total: nat) returns (r: Outcome<nat>)
      requires Valid() && total < WORD_LIMIT && NoWrap(heapPtr, total)
      modifies this
      ensures r.Done? ==> Valid()
      ensures total == 0 ==> r == Done(0)
      ensures total > 0 ==> r != Done(0)
      ensures r == Done(0) ==> view == old(view)
      ensures r.Done? && r.value != 0 ==> Allocated(old(view), view, r.value, total) && |view[r.value]| < WORD_LIMIT
      ensures r.Done? && r.value != 0 ==> forall k :: 0 <= k < total ==> view[r.value][k] == 0
      ensures r.Panic? <==>
        && total > 0 && FirstFit(old(blocks), RoundUp(total)) == |old(blocks)|
        && OutOfPages(old(heapPtr), old(heapEnd), old(framesLeft), HEADER_SIZE + RoundUp(total))
    {
      r := Malloc(total);
      if r.Done? && r.value != 0 {
        LiveSize(mem, blocks, view, HEAP_BASE, Brk(), r.value);
        Clear(r.value, total);
        assert view == old(view)[r.value := view[r.value]];
      }
    }

    /** The loop of `calloc`. */
    method Clear(p: nat, n: nat)
      requires Valid() && p in view && n <= |view[p]|
      modifies this`mem, this`view
      ensures Valid() && p in view && |view[p]| == |old(view)[p]| && view == old(view)[p := view[p]]
      ensures forall k :: 0 <= k < n ==> view[p][k] == 0
    {
      var i := 0;
      while i < n
        invariant 0 <= i <= n && Valid() && p in view && |view[p]| == |old(view)[p]| && view == old(view)[p := view[p]]
        invariant forall k :: 0 <= k < i ==> view[p][k] == 0
      {
        Poke(p, i, 0);
        i := i + 1;
      }
    }
  }
}
