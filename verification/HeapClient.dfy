/** A client of the user heap: the calls of user/lib/malloc.c carried out on the heap itself are the
    calls of the run model, so what holds of its runs holds of the heap. */
module HeapClient {
  import opened Machine
  import opened Outcomes
  import opened ByteMemory
  import opened BlockList
  import opened HeapView
  import opened UserHeap
  import opened HeapRuns

  /** The size that is asked of the heap. */
  function Asked(a: Act): nat {
    match a
    case Malloc(_, size) => size
    case Calloc(_, nmemb, size) => Product(nmemb, size)
    case Realloc(_, size) => size
    case Release(_) => 0
    case Store(_, _, _) => 0
  }

  class Client {
    const heap: Heap
    var at: map<Id, nat>
    ghost var buffers: Buffers

    ghost function Here(): Real
      reads this, heap
    {
      Real(heap.view, at)
    }

    ghost predicate Valid()
      reads this, heap
    {
      heap.Valid() && Agrees(Here(), buffers)
    }

    constructor (heap: Heap)
      requires heap.Valid() && heap.view == map[]
      ensures Valid() && this.heap == heap && buffers == map[]
    {
      this.heap, at, buffers := heap, map[], map[];
    }

    method Allocate(id: Id, size: nat) returns (r: Outcome<()>)
      requires heap.Valid() && size < WORD_LIMIT && NoWrap(heap.heapPtr, size)
      modifies this`at, heap
      ensures r.Done? ==> heap.Valid() && Call(old(Here()), Act.Malloc(id, size), Here())
      ensures r.Panic? ==> OutOfPages(old(heap.heapPtr), old(heap.heapEnd), old(heap.framesLeft), HEADER_SIZE + RoundUp(size))
    {
      var p := heap.Malloc(size);
      if p.Panic? {
        return Panic;
      }
      if p.value != 0 {
        at := at[id := p.value];
      }
      r := Done(());
    }

    method AllocateZeroed(id: Id, nmemb: nat, size: nat) returns (r: Outcome<()>)
      requires heap.Valid() && NoWrap(heap.heapPtr, Product(nmemb, size))
      modifies this`at, heap
      ensures r.Done? ==> heap.Valid() && Call(old(Here()), Act.Calloc(id, nmemb, size), Here())
      ensures r.Panic? ==> OutOfPages(old(heap.heapPtr), old(heap.heapEnd), old(heap.framesLeft), HEADER_SIZE + RoundUp(Product(nmemb, size)))
    {
      var p := heap.Calloc(nmemb, size);
      if p.Panic? {
        return Panic;
      }
      if p.value != 0 {
        at := at[id := p.value];
      }
      r := Done(());
    }

    method Resize(id: Id, size: nat) returns (r: Outcome<()>)
      requires heap.Valid() && id in at && at[id] in heap.view && at[id] != 0 && size < WORD_LIMIT && NoWrap(heap.heapPtr, size)
      modifies this`at, heap
      ensures r.Done? ==> heap.Valid() && Call(old(Here()), Act.Realloc(id, size), Here())
      ensures r.Panic? ==> OutOfPages(old(heap.heapPtr), old(heap.heapEnd), old(heap.framesLeft), HEADER_SIZE + RoundUp(size))
    {
      var p := heap.Realloc(at[id], size);
      if p.Panic? {
        return Panic;
      }
      at := if size == 0 then at - {id} else at[id := p.value];
      r := Done(());
    }

    /** The call names an object that has a block, where it must. */
    ghost predicate Names(a: Act)
      reads this`at, heap`view
    {
      match a
      case Malloc(_, _) => true
      case Calloc(_, _, _) => true
      case Realloc(id, _) => id in at && at[id] in heap.view && at[id] != 0
      case Release(id) => id in at && at[id] in heap.view && at[id] != 0
      case Store(id, k, _) => id in at && at[id] in heap.view && k < |heap.view[at[id]]|
    }

    /** The call itself. */
    method Perform(a: Act) returns (r: Outcome<()>)
      requires heap.Valid() && Names(a) && Asked(a) < WORD_LIMIT && NoWrap(heap.heapPtr, Asked(a))
      modifies this`at, heap
      ensures r.Done? ==> heap.Valid() && Call(old(Here()), a, Here())
      ensures r.Panic? ==> OutOfPages(old(heap.heapPtr), old(heap.heapEnd), old(heap.framesLeft), HEADER_SIZE + RoundUp(Asked(a)))
      ensures a.Release? || a.Store? ==> r.Done?
    {
      r := Done(());
      match a {
        case Malloc(id, size) => r := Allocate(id, size);
        case Calloc(id, nmemb, size) => r := AllocateZeroed(id, nmemb, size);
        case Realloc(id, size) => r := Resize(id, size);
        case Release(id) =>
          heap.Free(at[id]);
          at := at - {id};
        case Store(id, k, v) =>
          heap.Poke(at[id], k, v);
      }
    }

    /** Any call: the heap does what the run model says, and the objects read as expected; only a
        machine out of pages stops it. */
    method Do(a: Act) returns (r: Outcome<()>)
      requires Valid() && Allowed(buffers, a) && Asked(a) < WORD_LIMIT && NoWrap(heap.heapPtr, Asked(a))
      modifies this, heap
      ensures r.Done? ==> Valid() && buffers == Expected(old(buffers), a) && Call(old(Here()), a, Here())
      ensures r.Panic? ==> OutOfPages(old(heap.heapPtr), old(heap.heapEnd), old(heap.framesLeft), HEADER_SIZE + RoundUp(Asked(a)))
      ensures a.Release? || a.Store? ==> r.Done?
    {
      ghost var before := Here();
      assert a.id in buffers ==> Holds(before, buffers, a.id);
      NullNotHeld();
      r := Perform(a);
      if r.Done? {
        CallKeeps(before, buffers, a, Here());
        buffers := Expected(buffers, a);
      }
    }

    lemma NullNotHeld()
      requires heap.Valid()
      ensures 0 !in heap.view
    {
      NotShown(heap.mem, heap.blocks, heap.view, HEAP_BASE, heap.Brk(), 0);
    }
  }
}
