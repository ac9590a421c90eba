/** How the user heap grows, user/lib/malloc.c: a chunk is mapped with 4096 bytes to spare, and the
    requests that follow are served from them, one behind the other, without another page. */
module HeapGrowth {
  import opened Machine
  import opened Outcomes
  import opened ByteMemory
  import opened BlockList
  import opened HeapView
  import opened UserHeap

  /** A size rounded up to a multiple of 8. */
  function Rounded(size: nat): (n: nat)
    ensures size <= n < size + 8 && n % 8 == 0
  {
    (size + 7) / 8 * 8
  }

  /** What requests take from a chunk: rounded sizes and 24-byte headers. */
  function Cost(sizes: seq<nat>): nat {
    if sizes == [] then 0 else Cost(sizes[..|sizes| - 1]) + 24 + Rounded(sizes[|sizes| - 1])
  }

  lemma {:induction false} CostPrefix(sizes: seq<nat>, i: nat)
    requires i < |sizes|
    ensures Cost(sizes[..i + 1]) == Cost(sizes[..i]) + 24 + Rounded(sizes[i]) <= Cost(sizes)
    decreases |sizes|
  {
    assert sizes[..i + 1][..i] == sizes[..i];
    if i + 1 < |sizes| {
      var less := sizes[..|sizes| - 1];
      assert less[..i + 1] == sizes[..i + 1] && less[..i] == sizes[..i];
      CostPrefix(less, i);
    } else {
      assert sizes[..i + 1] == sizes;
    }
  }

  ghost predicate NoneFree(bs: Blocks) {
    forall b :: b in bs ==> !b.free
  }

  /** The pointers when every request is served from the top. */
  ghost predicate InTurn(start: nat, sizes: seq<nat>, ptrs: seq<nat>) {
    |ptrs| <= |sizes| && forall k :: 0 <= k < |ptrs| ==> ptrs[k] == start + Cost(sizes[..k]) + 24
  }

  /** One of the requests. */
  method Next(heap: Heap, size: nat) returns (p: nat)
    requires heap.Valid() && size > 0 && InChunk(heap.Here(), 24 + Rounded(size))
    modifies heap
    ensures heap.Valid() && p != 0 && Allocated(old(heap.view), heap.view, p, size)
    ensures heap.heapEnd == old(heap.heapEnd) && heap.heapTop == old(heap.heapTop) && heap.framesLeft == old(heap.framesLeft)
    ensures old(heap.heapPtr) <= heap.heapPtr <= old(heap.heapPtr) + 24 + Rounded(size)
    ensures NoneFree(old(heap.blocks)) ==>
      && NoneFree(heap.blocks) && p == old(heap.heapPtr) + 24 && heap.heapPtr == old(heap.heapPtr) + 24 + Rounded(size)
  {
    SmallRequestsFit(heap.heapPtr, size);
    assert RoundUp(size) == Rounded(size);
    var r := heap.Malloc(size);
    p := r.value;
  }

  /** Requests that fit in what is left of the chunk never panic and take no page; with no free block
      in the list they follow each other in address. */
  method MallocAll(heap: Heap, sizes: seq<nat>) returns (ptrs: seq<nat>)
    requires heap.Valid() && heap.heapPtr != 0 && heap.heapPtr + Cost(sizes) <= heap.heapEnd
    requires forall s :: s in sizes ==> s > 0
    modifies heap
    ensures heap.Valid() && |ptrs| == |sizes|
    ensures heap.heapEnd == old(heap.heapEnd) && heap.heapTop == old(heap.heapTop) && heap.framesLeft == old(heap.framesLeft)
    ensures NoneFree(old(heap.blocks)) ==> InTurn(old(heap.heapPtr), sizes, ptrs)
  {
    ptrs := [];
    ghost var start, live := heap.heapPtr, NoneFree(heap.blocks);
    var i := 0;
    while i < |sizes|
      invariant 0 <= i <= |sizes| && |ptrs| == i && heap.Valid()
      invariant heap.heapEnd == old(heap.heapEnd) && heap.heapTop == old(heap.heapTop) && heap.framesLeft == old(heap.framesLeft)
      invariant start <= heap.heapPtr <= start + Cost(sizes[..i])
      invariant live ==> NoneFree(heap.blocks) && heap.heapPtr == start + Cost(sizes[..i])
      invariant live ==> InTurn(start, sizes, ptrs)
    {
      CostPrefix(sizes, i);
      assert sizes[i] in sizes;
      var p := Next(heap, sizes[i]);
      ptrs := ptrs + [p];
      i := i + 1;
    }
  }

  /** After a request that maps a chunk, requests that take 4096 bytes in all are served without
      another page and without a panic. */
  method SpareServes(heap: Heap, first: nat, sizes: seq<nat>) returns (r: Outcome<nat>, ptrs: seq<nat>)
    requires heap.Valid() && 0 < first < WORD_LIMIT && NoWrap(heap.heapPtr, first)
    requires FirstFit(heap.blocks, RoundUp(first)) == |heap.blocks| && !InChunk(heap.Here(), 24 + RoundUp(first))
    requires Cost(sizes) <= 4096 && forall s :: s in sizes ==> s > 0
    modifies heap
    ensures r.Panic? <==> OutOfPages(old(heap.heapPtr), old(heap.heapEnd), old(heap.framesLeft), 24 + RoundUp(first))
    ensures r.Done? ==> heap.Valid() && |ptrs| == |sizes| && r.value == old(heap.heapTop) + 24
    ensures r.Done? ==>
      var bytes := 24 + RoundUp(first) + 4096;
      && bytes <= heap.heapTop - old(heap.heapTop) < bytes + 4096
      && heap.heapTop + heap.framesLeft * 4096 == old(heap.heapTop + heap.framesLeft * 4096)
    ensures r.Done? && NoneFree(old(heap.blocks)) ==> InTurn(r.value + RoundUp(first), sizes, ptrs)
  {
    r := heap.Malloc(first);
    ptrs := [];
    if r.Done? {
      ptrs := MallocAll(heap, sizes);
    }
  }
}
