/** Whole runs of malloc, calloc, realloc, free and stores: the heap behaves like a collection of
    independent byte buffers, one per object, whatever addresses the allocator picks. */
module HeapRuns {
  import opened Outcomes
  import opened ByteMemory
  import opened BlockList
  import opened HeapView
  import opened UserHeap

  type Id = nat

  /** The buffers a client believes to have; a byte nobody has written is unknown. */
  type Buffers = map<Id, seq<Option<byte>>>

  datatype Act =
    | Malloc(id: Id, size: nat)
    | Calloc(id: Id, nmemb: nat, size: nat)
    | Realloc(id: Id, size: nat)
    | Release(id: Id)
    | Store(id: Id, k: nat, v: byte)

  predicate Allowed(b: Buffers, a: Act) {
    match a
    case Malloc(id, _) => id !in b
    case Calloc(id, _, _) => id !in b
    case Realloc(id, _) => id in b
    case Release(id) => id in b
    case Store(id, k, _) => id in b && k < |b[id]|
  }

  function Filled(n: nat, x: Option<byte>): seq<Option<byte>> {
    seq(n, i => x)
  }

  function Expected(b: Buffers, a: Act): Buffers
    requires Allowed(b, a)
  {
    match a
    case Malloc(id, size) => if size == 0 then b else b[id := Filled(size, None)]
    case Calloc(id, nmemb, size) =>
      var total := Product(nmemb, size);
      if total == 0 then b else b[id := Filled(total, Some(0))]
    case Realloc(id, size) =>
      if size == 0 then b - {id}
      else b[id := if size <= |b[id]| then b[id][..size] else b[id] + Filled(size - |b[id]|, None)]
    case Release(id) => b - {id}
    case Store(id, k, v) => b[id := b[id][k := Some(v)]]
  }

  /** What the heap really did: the view of the heap, and where each object is. */
  datatype Real = Real(view: View, at: map<Id, nat>)

  ghost predicate Zeroed(s: seq<byte>, n: nat)
  {
    n <= |s| && forall k :: 0 <= k < n ==> s[k] == 0
  }

  /** Object `id` was placed in a block of its own. */
  ghost predicate Placing(r: Real, id: Id, size: nat, r': Real) {
    id in r'.at && r'.at == r.at[id := r'.at[id]] && Allocated(r.view, r'.view, r'.at[id], size)
  }

  /** Object `id` was given up. */
  ghost predicate Dropping(r: Real, id: Id, r': Real) {
    id in r.at && r'.at == r.at - {id} && r'.view == r.view - {r.at[id]}
  }

  /** One call that did not panic; a request for no bytes gives no block. */
  ghost predicate Call(r: Real, a: Act, r': Real) {
    match a
    case Malloc(id, size) => if size == 0 then r' == r else Placing(r, id, size, r')
    case Calloc(id, nmemb, size) =>
      var total := Product(nmemb, size);
      if total == 0 then r' == r else Placing(r, id, total, r') && Zeroed(r'.view[r'.at[id]], total)
    case Realloc(id, size) =>
      if size == 0 then Dropping(r, id, r')
      else
        && id in r.at && id in r'.at && r'.at == r.at[id := r'.at[id]]
        && Reallocated(r.view, r'.view, r.at[id], r'.at[id], size)
    case Release(id) => Dropping(r, id, r')
    case Store(id, k, v) =>
      && id in r.at && r'.at == r.at && r.at[id] in r.view && k < |r.view[r.at[id]]|
      && r'.view == r.view[r.at[id] := Patched(r.view[r.at[id]], k, v)]
  }

  ghost predicate Reads(s: seq<byte>, e: seq<Option<byte>>) {
    |e| <= |s| && forall k :: 0 <= k < |e| && e[k].Some? ==> s[k] == e[k].value
  }

  ghost predicate Holds(r: Real, b: Buffers, i: Id) {
    i in r.at && i in b && r.at[i] in r.view && Reads(r.view[r.at[i]], b[i])
  }

  ghost predicate AllHold(r: Real, b: Buffers) {
    r.at.Keys == b.Keys && forall i :: i in b ==> Holds(r, b, i)
  }

  ghost predicate Apart(at: map<Id, nat>) {
    forall i, j :: i in at && j in at && i != j ==> at[i] != at[j]
  }

  ghost predicate Owned(r: Real, p: nat) {
    exists i :: i in r.at && r.at[i] == p
  }

  ghost predicate AllOwned(r: Real) {
    forall p :: p in r.view ==> Owned(r, p)
  }

  /** Every object is where it is said to be, alone, and reads as expected; nothing else is live. */
  ghost predicate Agrees(r: Real, b: Buffers) {
    AllHold(r, b) && Apart(r.at) && AllOwned(r)
  }

  function Moved(r: Real, id: Id, p: nat, s: seq<byte>): Real {
    Real((if id in r.at then r.view - {r.at[id]} else r.view)[p := s], r.at[id := p])
  }

  lemma MovedHolds(r: Real, b: Buffers, id: Id, p: nat, s: seq<byte>, e: seq<Option<byte>>)
    requires AllHold(r, b) && Apart(r.at) && Reads(s, e) && (p in r.view ==> id in r.at && r.at[id] == p)
    ensures AllHold(Moved(r, id, p, s), b[id := e])
    ensures Apart(Moved(r, id, p, s).at)
  {
    var r', b' := Moved(r, id, p, s), b[id := e];
    forall i | i in b' ensures Holds(r', b', i) && (i != id ==> r'.at[i] != p) {
      assert i != id ==> Holds(r, b, i);
    }
  }

  lemma MovedOwned(r: Real, id: Id, p: nat, s: seq<byte>)
    requires AllOwned(r)
    ensures AllOwned(Moved(r, id, p, s))
  {
    var r' := Moved(r, id, p, s);
    forall q | q in r'.view ensures Owned(r', q) {
      if q == p {
        assert r'.at[id] == q;
      } else {
        assert Owned(r, q);
        var i :| i in r.at && r.at[i] == q;
        assert r'.at[i] == q;
      }
    }
  }

  lemma AgreesDrop(r: Real, b: Buffers, id: Id)
    requires Agrees(r, b) && id in b
    ensures Agrees(Real(r.view - {r.at[id]}, r.at - {id}), b - {id})
  {
    var r' := Real(r.view - {r.at[id]}, r.at - {id});
    forall i | i in b - {id} ensures Holds(r', b - {id}, i) {
      assert Holds(r, b, i);
    }
    forall q | q in r'.view ensures Owned(r', q) {
      assert Owned(r, q);
      var i :| i in r.at && r.at[i] == q;
      assert r'.at[i] == q;
    }
  }

  /** The object has a block after the call. */
  predicate Gives(a: Act) {
    match a
    case Malloc(_, size) => size > 0
    case Calloc(_, nmemb, size) => Product(nmemb, size) > 0
    case Realloc(_, size) => size > 0
    case Release(_) => false
    case Store(_, _, _) => true
  }

  /** Such a call moves the object to a block of its own that reads as expected. */
  lemma CallMoves(r: Real, b: Buffers, a: Act, r': Real)
    requires AllHold(r, b) && Allowed(b, a) && Call(r, a, r') && Gives(a)
    ensures a.id in r'.at && r'.at[a.id] in r'.view
    ensures
      var p := r'.at[a.id];
      r' == Moved(r, a.id, p, r'.view[p]) && (p in r.view ==> a.id in r.at && r.at[a.id] == p)
    ensures a.id in Expected(b, a) && Expected(b, a) == b[a.id := Expected(b, a)[a.id]]
    ensures Reads(r'.view[r'.at[a.id]], Expected(b, a)[a.id])
  {
    assert a.id in r.at ==> Holds(r, b, a.id);
    if a.Store? {
      assert r'.view == (r.view - {r.at[a.id]})[r.at[a.id] := r'.view[r.at[a.id]]];
      assert r'.at == r.at[a.id := r.at[a.id]];
    }
  }

  lemma CallKeeps(r: Real, b: Buffers, a: Act, r': Real)
    requires Agrees(r, b) && Allowed(b, a) && Call(r, a, r')
    ensures Agrees(r', Expected(b, a))
  {
    if Gives(a) {
      CallMoves(r, b, a, r');
      var p := r'.at[a.id];
      MovedHolds(r, b, a.id, p, r'.view[p], Expected(b, a)[a.id]);
      MovedOwned(r, a.id, p, r'.view[p]);
    } else if a.Release? || a.Realloc? {
      AgreesDrop(r, b, a.id);
    }
  }

  ghost predicate IsRun(rs: seq<Real>, acts: seq<Act>, bs: seq<Buffers>) {
    && |rs| == |acts| + 1 == |bs|
    && rs[0] == Real(map[], map[]) && bs[0] == map[]
    && forall i :: 0 <= i < |acts| ==> RunStep(rs, acts, bs, i)
  }

  ghost predicate RunStep(rs: seq<Real>, acts: seq<Act>, bs: seq<Buffers>, i: nat)
    requires i < |acts| && i + 1 < |rs| && i + 1 < |bs|
  {
    Allowed(bs[i], acts[i]) && Call(rs[i], acts[i], rs[i + 1]) && bs[i + 1] == Expected(bs[i], acts[i])
  }

  /** In every run, every byte an object is known to hold is what the heap has at its address, and
      distinct live objects have distinct blocks. */
  lemma {:induction false} RunAgrees(rs: seq<Real>, acts: seq<Act>, bs: seq<Buffers>, i: nat)
    requires IsRun(rs, acts, bs) && i < |rs|
    ensures Agrees(rs[i], bs[i])
  {
    if i > 0 {
      RunAgrees(rs, acts, bs, i - 1);
      assert RunStep(rs, acts, bs, i - 1);
      CallKeeps(rs[i - 1], bs[i - 1], acts[i - 1], rs[i]);
    }
  }

  /** Live payloads lie in the heap, are 8-aligned, and no two of them share a byte. */
  lemma LiveDisjoint(m: Mem, bs: Blocks, c: View, lo: nat, hi: nat, p: nat, q: nat)
    requires Shows(m, bs, c) && Layout(bs, lo, hi) && p in c && q in c && p != q
    ensures p % 8 == 0 && lo < p && p + |c[p]| <= hi
    ensures p + |c[p]| + HEADER_SIZE <= q || q + |c[q]| + HEADER_SIZE <= p
  {
    var i := BlockOf(m, bs, c, p);
    var j := BlockOf(m, bs, c, q);
    assert PlacedAt(bs, lo, hi, i);
    PayloadsDisjoint(bs, lo, hi, i, j);
  }
}
