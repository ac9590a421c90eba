/** The block list of the user heap, user/lib/malloc.c, as a value: blocks in address order
    whose 24-byte headers live in the same byte memory as the payloads. */
module BlockList {
  import opened Machine
  import opened ByteMemory

  const HEADER_SIZE: nat := 24
  const MIN_SPLIT: nat := 40

  datatype Block = Block(addr: nat, size: nat, free: bool) {
    function End(): nat { addr + HEADER_SIZE + size }
    function Ptr(): nat { addr + HEADER_SIZE }
  }

  type Blocks = seq<Block>

  /** Ordered and non-overlapping inside `lo .. hi`; neighbours need not touch. */
  ghost predicate Layout(bs: Blocks, lo: nat, hi: nat) {
    && 0 < lo && hi < WORD_LIMIT
    && (forall i: int :: PlacedAt(bs, lo, hi, i))
    && (forall i, j :: 0 <= i < j < |bs| ==> Before(bs, i, j))
  }

  predicate Placed(b: Block, lo: nat, hi: nat) {
    lo <= b.addr && b.End() <= hi && b.addr % 8 == 0 && b.size % 8 == 0
  }

  predicate PlacedAt(bs: Blocks, lo: nat, hi: nat, i: int) {
    0 <= i < |bs| ==> Placed(bs[i], lo, hi)
  }

  predicate Before(bs: Blocks, i: nat, j: nat)
    requires i < |bs| && j < |bs|
  {
    bs[i].End() <= bs[j].addr
  }

  function NextAddr(bs: Blocks, i: nat): nat {
    if i + 1 < |bs| then bs[i + 1].addr else 0
  }

  function HeadAddr(bs: Blocks): nat {
    if bs == [] then 0 else bs[0].addr
  }

  /** The header fields in memory: size, free flag, next pointer. */
  predicate HeaderAt(m: Mem, b: Block, next: nat) {
    && Word(m, b.addr) == b.size
    && (Get(m, b.addr + 8) != 0) == b.free
    && Word(m, b.addr + 16) == next
  }

  ghost predicate Headers(m: Mem, bs: Blocks) {
    forall i :: 0 <= i < |bs| ==> HeaderOf(m, bs, i)
  }

  predicate HeaderOf(m: Mem, bs: Blocks, i: nat)
    requires i < |bs|
  {
    HeaderAt(m, bs[i], NextAddr(bs, i))
  }

  /** Live payloads are disjoint from each other and from every header. */
  lemma PayloadsDisjoint(bs: Blocks, lo: nat, hi: nat, i: nat, j: nat)
    requires Layout(bs, lo, hi) && i < |bs| && j < |bs| && i != j
    ensures bs[i].End() <= bs[j].addr || bs[j].End() <= bs[i].addr
  {
    assert if i < j then Before(bs, i, j) else Before(bs, j, i);
  }

  lemma SameAddr(bs: Blocks, lo: nat, hi: nat, i: nat, j: nat)
    requires Layout(bs, lo, hi) && i < |bs| && j < |bs| && bs[i].addr == bs[j].addr
    ensures i == j
  {
    assert i < j ==> Before(bs, i, j);
    assert j < i ==> Before(bs, j, i);
  }

  // ----- memory effects -----

  lemma HeaderSame(m: Mem, m': Mem, b: Block, next: nat)
    requires HeaderAt(m, b, next)
    requires forall k: nat :: b.addr <= k < b.addr + HEADER_SIZE ==> SameAt(m, m', k)
    ensures HeaderAt(m', b, next)
  {
    WordSame(m, m', b.addr);
    WordSame(m, m', b.addr + 16);
    assert SameAt(m, m', b.addr + 8);
  }

  ghost predicate ByteSet(m: Mem, a: nat, v: byte, m': Mem) {
    m'.Keys == m.Keys && Get(m', a) == v && SameOutside(m, m', a, a + 1)
  }

  /** Size and next written, the flag kept. */
  lemma SizeNextSet(m: Mem, m1: Mem, m2: Mem, b: Block, next: nat)
    requires WordSet(m, b.addr, b.size, m1) && WordSet(m1, b.addr + 16, next, m2)
    requires (Get(m, b.addr + 8) != 0) == b.free
    ensures HeaderWritten(m, b, next, m2)
  {
    WordSame(m1, m2, b.addr);
    assert SameAt(m, m1, b.addr + 8) && SameAt(m1, m2, b.addr + 8);
    SameOutsideTrans(m, m1, m2, b.addr, b.addr + HEADER_SIZE);
  }

  /** A whole header written field by field. */
  lemma HeaderSet(m: Mem, m1: Mem, m2: Mem, m3: Mem, b: Block, next: nat)
    requires WordSet(m, b.addr, b.size, m1)
    requires ByteSet(m1, b.addr + 8, if b.free then 1 else 0, m2)
    requires WordSet(m2, b.addr + 16, next, m3)
    ensures HeaderWritten(m, b, next, m3)
  {
    WordSame(m1, m2, b.addr);
    SameOutsideTrans(m, m1, m2, b.addr, b.addr + HEADER_SIZE);
    SizeNextKept(m, m2, m3, b, next);
  }

  lemma SizeNextKept(m: Mem, m2: Mem, m3: Mem, b: Block, next: nat)
    requires Word(m2, b.addr) == b.size && (Get(m2, b.addr + 8) != 0) == b.free
    requires SameOutside(m, m2, b.addr, b.addr + HEADER_SIZE) && WordSet(m2, b.addr + 16, next, m3)
    ensures HeaderAt(m3, b, next) && SameOutside(m, m3, b.addr, b.addr + HEADER_SIZE)
  {
    WordSame(m2, m3, b.addr);
    assert SameAt(m2, m3, b.addr + 8);
    SameOutsideTrans(m, m2, m3, b.addr, b.addr + HEADER_SIZE);
  }

  /** The flag written, size and next kept. */
  lemma FlagSet(m: Mem, m': Mem, b: Block, next: nat)
    requires ByteSet(m, b.addr + 8, if b.free then 1 else 0, m')
    requires Word(m, b.addr) == b.size && Word(m, b.addr + 16) == next
    ensures HeaderWritten(m, b, next, m')
  {
    WordSame(m, m', b.addr);
    WordSame(m, m', b.addr + 16);
  }

  // ----- edits of the list -----

  /** Block `i` swallows its successor; a gap between them is left unaccounted. */
  function Merge(bs: Blocks, i: nat): Blocks
    requires i + 1 < |bs|
  {
    bs[..i] + [Block(bs[i].addr, bs[i].size + HEADER_SIZE + bs[i + 1].size, bs[i].free)] + bs[i + 2..]
  }

  /** Block `i` keeps `size` bytes and a free block takes the rest. */
  function Split(bs: Blocks, i: nat, size: nat): Blocks
    requires i < |bs| && size + MIN_SPLIT <= bs[i].size
  {
    bs[..i]
    + [Block(bs[i].addr, size, bs[i].free), Block(bs[i].addr + HEADER_SIZE + size, bs[i].size - size - HEADER_SIZE, true)]
    + bs[i + 1..]
  }

  function SetFree(bs: Blocks, i: nat, free: bool): Blocks
    requires i < |bs|
  {
    bs[i := bs[i].(free := free)]
  }

  /** A write confined to block `i` leaves every other header as it was. */
  lemma OtherHeader(m: Mem, m': Mem, bs: Blocks, lo: nat, hi: nat, i: nat, j: nat, next: nat)
    requires Layout(bs, lo, hi) && i < |bs| && j < |bs| && j != i && HeaderAt(m, bs[j], next)
    requires SameOutside(m, m', bs[i].addr, bs[i].End())
    ensures HeaderAt(m', bs[j], next)
  {
    PayloadsDisjoint(bs, lo, hi, i, j);
    assert forall k: nat :: bs[j].addr <= k < bs[j].addr + HEADER_SIZE ==> SameAt(m, m', k);
    HeaderSame(m, m', bs[j], next);
  }

  lemma Moved(m: Mem, bs: Blocks, j: nat, bs': Blocks, j': nat)
    requires j < |bs| && HeaderAt(m, bs[j], NextAddr(bs, j))
    requires j' < |bs'| && bs'[j'] == bs[j] && NextAddr(bs', j') == NextAddr(bs, j)
    ensures HeaderOf(m, bs', j')
  {}

  lemma MergePlaced(bs: Blocks, i: nat, lo: nat, hi: nat)
    requires Layout(bs, lo, hi) && i + 1 < |bs|
    ensures Placed(Merge(bs, i)[i], lo, hi) && Merge(bs, i)[i].addr == bs[i].addr && Merge(bs, i)[i].End() <= bs[i + 1].End()
  {
    assert Before(bs, i, i + 1) && PlacedAt(bs, lo, hi, i) && PlacedAt(bs, lo, hi, i + 1);
  }

  lemma MergeOrder(bs: Blocks, i: nat, lo: nat, hi: nat, j: nat, k: nat)
    requires Layout(bs, lo, hi) && i + 1 < |bs| && j < k < |Merge(bs, i)|
    ensures Before(Merge(bs, i), j, k)
  {
    MergePlaced(bs, i, lo, hi);
    assert Before(bs, if j < i then j else j + 1, if k <= i then k else k + 1);
  }

  lemma MergeLayout(bs: Blocks, i: nat, lo: nat, hi: nat)
    requires Layout(bs, lo, hi) && i + 1 < |bs|
    ensures Layout(Merge(bs, i), lo, hi)
  {
    var bs' := Merge(bs, i);
    MergePlaced(bs, i, lo, hi);
    forall k: int ensures PlacedAt(bs', lo, hi, k) {
      if k != i {
        assert PlacedAt(bs, lo, hi, if k < i then k else k + 1);
      }
    }
    forall j, k | 0 <= j < k < |bs'|
      ensures Before(bs', j, k)
    {
      MergeOrder(bs, i, lo, hi, j, k);
    }
  }

  lemma MergeHeaders(m: Mem, m': Mem, bs: Blocks, i: nat, lo: nat, hi: nat)
    requires Layout(bs, lo, hi) && Headers(m, bs) && i + 1 < |bs|
    requires SameOutside(m, m', bs[i].addr, bs[i].End())
    requires HeaderAt(m', Merge(bs, i)[i], NextAddr(bs, i + 1))
    ensures Headers(m', Merge(bs, i))
  {
    var bs' := Merge(bs, i);
    forall j | 0 <= j < |bs'|
      ensures HeaderOf(m', bs', j)
    {
      if j != i {
        var o := if j < i then j else j + 1;
        assert HeaderOf(m, bs, o);
        OtherHeader(m, m', bs, lo, hi, i, o, NextAddr(bs, o));
        Moved(m', bs, o, bs', j);
      }
    }
  }

  lemma SplitLayout(bs: Blocks, i: nat, size: nat, lo: nat, hi: nat)
    requires Layout(bs, lo, hi) && i < |bs| && size + MIN_SPLIT <= bs[i].size && size % 8 == 0
    ensures Layout(Split(bs, i, size), lo, hi)
  {
    var bs' := Split(bs, i, size);
    assert PlacedAt(bs, lo, hi, i);
    forall k: int ensures PlacedAt(bs', lo, hi, k) {
      assert PlacedAt(bs, lo, hi, if k <= i then k else k - 1);
    }
    forall j, k | 0 <= j < k < |bs'|
      ensures Before(bs', j, k)
    {
      var oj, ok := if j <= i then j else j - 1, if k <= i then k else k - 1;
      assert oj < ok ==> Before(bs, oj, ok);
    }
  }

  lemma SplitHeaders(m: Mem, m': Mem, bs: Blocks, i: nat, size: nat, lo: nat, hi: nat)
    requires Layout(bs, lo, hi) && Headers(m, bs)
    requires i < |bs| && size + MIN_SPLIT <= bs[i].size
    requires SameOutside(m, m', bs[i].addr, bs[i].End())
    requires HeaderAt(m', Split(bs, i, size)[i], Split(bs, i, size)[i + 1].addr)
    requires HeaderAt(m', Split(bs, i, size)[i + 1], NextAddr(bs, i))
    ensures Headers(m', Split(bs, i, size))
  {
    var bs' := Split(bs, i, size);
    forall j | 0 <= j < |bs'|
      ensures HeaderOf(m', bs', j)
    {
      if j != i && j != i + 1 {
        SplitOther(m, m', bs, i, size, lo, hi, j);
      }
    }
  }

  lemma SplitOther(m: Mem, m': Mem, bs: Blocks, i: nat, size: nat, lo: nat, hi: nat, j: nat)
    requires Layout(bs, lo, hi) && Headers(m, bs)
    requires i < |bs| && size + MIN_SPLIT <= bs[i].size
    requires SameOutside(m, m', bs[i].addr, bs[i].End())
    requires j <= |bs| && j != i && j != i + 1
    ensures HeaderOf(m', Split(bs, i, size), j)
  {
    var bs', o := Split(bs, i, size), if j < i then j else j - 1;
    assert bs'[j] == bs[o] && HeaderOf(m, bs, o);
    OtherHeader(m, m', bs, lo, hi, i, o, NextAddr(bs, o));
    Moved(m', bs, o, bs', j);
  }

  lemma SetFreeLayout(bs: Blocks, i: nat, free: bool, lo: nat, hi: nat)
    requires Layout(bs, lo, hi) && i < |bs|
    ensures Layout(SetFree(bs, i, free), lo, hi)
  {
    var bs' := SetFree(bs, i, free);
    forall k: int ensures PlacedAt(bs', lo, hi, k) {
      assert PlacedAt(bs, lo, hi, k);
    }
    forall j, k | 0 <= j < k < |bs'|
      ensures Before(bs', j, k)
    {
      assert Before(bs, j, k);
    }
  }

  lemma SetFreeHeaders(m: Mem, m': Mem, bs: Blocks, i: nat, free: bool, lo: nat, hi: nat)
    requires Layout(bs, lo, hi) && Headers(m, bs) && i < |bs|
    requires SameOutside(m, m', bs[i].addr, bs[i].End())
    requires HeaderAt(m', SetFree(bs, i, free)[i], NextAddr(bs, i))
    ensures Headers(m', SetFree(bs, i, free))
  {
    var bs' := SetFree(bs, i, free);
    forall j | 0 <= j < |bs'|
      ensures HeaderOf(m', bs', j)
    {
      if j != i {
        assert HeaderOf(m, bs, j);
        OtherHeader(m, m', bs, lo, hi, i, j, NextAddr(bs, j));
        Moved(m', bs, j, bs', j);
      }
    }
  }

  lemma AppendHeaders(m: Mem, m': Mem, bs: Blocks, b: Block, lo: nat, hi: nat)
    requires Layout(bs + [b], lo, hi) && Headers(m, bs)
    requires forall k: nat :: k < b.addr ==>
      (bs != [] && bs[|bs| - 1].addr <= k < bs[|bs| - 1].addr + HEADER_SIZE) || SameAt(m, m', k)
    requires bs != [] ==> HeaderAt(m', bs[|bs| - 1], b.addr)
    requires HeaderAt(m', b, 0)
    ensures Headers(m', bs + [b])
  {
    var bs' := bs + [b];
    forall j | 0 <= j < |bs'|
      ensures HeaderOf(m', bs', j)
    {
      if j < |bs| - 1 {
        assert HeaderOf(m, bs, j);
        assert Before(bs', j, |bs| - 1) && Before(bs', j, |bs|);
        HeaderSame(m, m', bs[j], NextAddr(bs, j));
      }
    }
  }

  /** Merging with every free successor. */
  function Coalesced(bs: Blocks, i: nat): (bs': Blocks)
    requires i < |bs|
    ensures i < |bs'| && bs'[i].addr == bs[i].addr && bs'[i].free == bs[i].free && bs'[i].size >= bs[i].size
    ensures i + 1 == |bs'| || !bs'[i + 1].free
    decreases |bs|
  {
    if i + 1 < |bs| && bs[i + 1].free then Coalesced(Merge(bs, i), i) else bs
  }

  /** Splitting when the remainder can hold a block of at least 16 bytes. */
  function Trimmed(bs: Blocks, i: nat, size: nat): (bs': Blocks)
    requires i < |bs|
    ensures i < |bs'| && bs'[i].addr == bs[i].addr && bs'[i].free == bs[i].free
    ensures bs[i].size >= size ==> bs'[i].size >= size
  {
    if bs[i].size < size + MIN_SPLIT then bs else Split(bs, i, size)
  }

  /** The first free block of at least `size` bytes; `|bs|` when there is none. */
  function FirstFit(bs: Blocks, size: nat, from: nat := 0): (i: nat)
    requires from <= |bs|
    ensures from <= i <= |bs|
    ensures i < |bs| ==> bs[i].free && bs[i].size >= size
    ensures forall j :: from <= j < i ==> !(bs[j].free && bs[j].size >= size)
    decreases |bs| - from
  {
    if from == |bs| || (bs[from].free && bs[from].size >= size) then from else FirstFit(bs, size, from + 1)
  }

  // ----- what an edit at one block leaves alone -----

  ghost predicate SamePayload(m: Mem, m': Mem, b: Block) {
    forall k: nat :: b.Ptr() <= k < b.End() ==> SameAt(m, m', k)
  }

  /** Live blocks other than the one at `p` are the same ones with the same bytes. */
  ghost predicate SameElse(m: Mem, bs: Blocks, m': Mem, bs': Blocks, p: nat) {
    forall b: Block :: KeptBlock(m, bs, m', bs', p, b)
  }

  ghost predicate KeptBlock(m: Mem, bs: Blocks, m': Mem, bs': Blocks, p: nat, b: Block) {
    !b.free && b.Ptr() != p ==> (b in bs <==> b in bs') && (b in bs ==> SamePayload(m, m', b))
  }

  lemma SameElseRefl(m: Mem, bs: Blocks, p: nat)
    ensures SameElse(m, bs, m, bs, p)
    ensures forall b :: SamePayload(m, m, b)
  {}

  lemma SameElseTrans(m: Mem, bs: Blocks, m1: Mem, bs1: Blocks, m2: Mem, bs2: Blocks, p: nat)
    requires SameElse(m, bs, m1, bs1, p) && SameElse(m1, bs1, m2, bs2, p)
    ensures SameElse(m, bs, m2, bs2, p)
  {
    forall b: Block ensures KeptBlock(m, bs, m2, bs2, p, b) {
      assert KeptBlock(m, bs, m1, bs1, p, b) && KeptBlock(m1, bs1, m2, bs2, p, b);
      assert forall k: nat :: SameAt(m, m1, k) && SameAt(m1, m2, k) ==> SameAt(m, m2, k);
    }
  }

  /** A write confined to block `i` and an edit that keeps the other live blocks. */
  lemma ConfinedEdit(m: Mem, m': Mem, bs: Blocks, bs': Blocks, lo: nat, hi: nat, i: nat)
    requires Layout(bs, lo, hi) && i < |bs| && SameOutside(m, m', bs[i].addr, bs[i].End())
    requires forall b: Block :: !b.free && b.addr != bs[i].addr ==> (b in bs <==> b in bs')
    ensures SameElse(m, bs, m', bs', bs[i].Ptr())
  {
    forall b: Block ensures KeptBlock(m, bs, m', bs', bs[i].Ptr(), b) {
      if !b.free && b.addr != bs[i].addr && b in bs {
        var j :| 0 <= j < |bs| && bs[j] == b;
        PayloadsDisjoint(bs, lo, hi, i, j);
      }
    }
  }

  lemma MergeKeeps(bs: Blocks, i: nat)
    requires i + 1 < |bs| && bs[i + 1].free
    ensures forall b: Block :: !b.free && b.addr != bs[i].addr ==> (b in bs <==> b in Merge(bs, i))
  {
    var bs' := Merge(bs, i);
    forall b: Block | !b.free && b.addr != bs[i].addr
      ensures b in bs <==> b in bs'
    {
      if b in bs {
        var j :| 0 <= j < |bs| && bs[j] == b;
        assert bs'[if j < i then j else j - 1] == b;
      }
      if b in bs' {
        var j :| 0 <= j < |bs'| && bs'[j] == b;
        assert bs[if j < i then j else j + 1] == b;
      }
    }
  }

  lemma SplitKeeps(bs: Blocks, i: nat, size: nat)
    requires i < |bs| && size + MIN_SPLIT <= bs[i].size
    ensures forall b: Block :: !b.free && b.addr != bs[i].addr ==> (b in bs <==> b in Split(bs, i, size))
  {
    var bs' := Split(bs, i, size);
    forall b: Block | !b.free && b.addr != bs[i].addr
      ensures b in bs <==> b in bs'
    {
      if b in bs {
        var j :| 0 <= j < |bs| && bs[j] == b;
        assert bs'[if j < i then j else j + 1] == b;
      }
      if b in bs' {
        var j :| 0 <= j < |bs'| && bs'[j] == b;
        assert bs[if j < i then j else j - 1] == b;
      }
    }
  }

  lemma SetFreeKeeps(bs: Blocks, i: nat, free: bool)
    requires i < |bs|
    ensures forall b: Block :: !b.free && b.addr != bs[i].addr ==> (b in bs <==> b in SetFree(bs, i, free))
  {
    var bs' := SetFree(bs, i, free);
    forall b: Block | b.addr != bs[i].addr
      ensures b in bs <==> b in bs'
    {
      if b in bs {
        var j :| 0 <= j < |bs| && bs[j] == b;
        assert bs'[j] == b;
      }
    }
  }

  // ----- one step of each edit, memory and list together -----

  /** The list is laid out in mapped memory and its headers are in place. */
  ghost predicate Good(m: Mem, bs: Blocks, lo: nat, hi: nat) {
    Layout(bs, lo, hi) && Headers(m, bs) && (forall k: nat :: lo <= k < hi ==> k in m)
  }

  lemma Fields(m: Mem, bs: Blocks, lo: nat, hi: nat, i: nat)
    requires Good(m, bs, lo, hi) && i < |bs|
    ensures HeaderAt(m, bs[i], NextAddr(bs, i))
    ensures Mapped(m, bs[i].addr, HEADER_SIZE + bs[i].size)
    ensures 0 < bs[i].addr && Placed(bs[i], lo, hi) && bs[i].size < WORD_LIMIT && NextAddr(bs, i) < WORD_LIMIT
    ensures NextAddr(bs, i) != 0 <==> i + 1 < |bs|
    ensures i + 1 < |bs| ==> bs[i].size + HEADER_SIZE + bs[i + 1].size < WORD_LIMIT
  {
    assert HeaderOf(m, bs, i) && PlacedAt(bs, lo, hi, i);
    assert i + 1 < |bs| ==> PlacedAt(bs, lo, hi, i + 1) && Before(bs, i, i + 1);
  }

  /** Where a block lies, without reading its header. */
  lemma Extent(m: Mem, bs: Blocks, lo: nat, hi: nat, i: nat)
    requires Good(m, bs, lo, hi) && i < |bs|
    ensures Mapped(m, bs[i].addr, HEADER_SIZE + bs[i].size)
    ensures lo <= bs[i].addr && bs[i].End() <= hi < WORD_LIMIT && NextAddr(bs, i) < WORD_LIMIT
    ensures i + 1 < |bs| ==> bs[i].size + HEADER_SIZE + bs[i + 1].size < WORD_LIMIT
  {
    assert PlacedAt(bs, lo, hi, i);
    assert i + 1 < |bs| ==> PlacedAt(bs, lo, hi, i + 1) && Before(bs, i, i + 1);
  }

  lemma MergeStep(m: Mem, bs: Blocks, lo: nat, hi: nat, i: nat, merged: Block, m': Mem)
    requires Good(m, bs, lo, hi) && i + 1 < |bs| && bs[i + 1].free
    requires merged == Block(bs[i].addr, bs[i].size + HEADER_SIZE + bs[i + 1].size, bs[i].free)
    requires HeaderWritten(m, merged, NextAddr(bs, i + 1), m')
    ensures Good(m', Merge(bs, i), lo, hi)
    ensures SameElse(m, bs, m', Merge(bs, i), bs[i].Ptr())
  {
    MergeLayout(bs, i, lo, hi);
    MergeHeaders(m, m', bs, i, lo, hi);
    MergeKeeps(bs, i);
    ConfinedEdit(m, m', bs, Merge(bs, i), lo, hi, i);
  }

  lemma SplitStep(m: Mem, bs: Blocks, lo: nat, hi: nat, i: nat, size: nat, m': Mem)
    requires Good(m, bs, lo, hi) && i < |bs| && size + MIN_SPLIT <= bs[i].size && size % 8 == 0
    requires m'.Keys == m.Keys && SameOutside(m, m', bs[i].addr, bs[i].End())
    requires HeaderAt(m', Split(bs, i, size)[i], Split(bs, i, size)[i + 1].addr)
    requires HeaderAt(m', Split(bs, i, size)[i + 1], NextAddr(bs, i))
    ensures Good(m', Split(bs, i, size), lo, hi)
    ensures SameElse(m, bs, m', Split(bs, i, size), bs[i].Ptr())
  {
    SplitLayout(bs, i, size, lo, hi);
    SplitHeaders(m, m', bs, i, size, lo, hi);
    SplitKeeps(bs, i, size);
    ConfinedEdit(m, m', bs, Split(bs, i, size), lo, hi, i);
  }

  /** The two header writes of `split`: the new block's, then the old block's. */
  ghost predicate SplitWritten(m: Mem, rest: Block, own: Block, next: nat, m2: Mem) {
    exists m1: Mem :: HeaderWritten(m, rest, next, m1) && HeaderWritten(m1, own, rest.addr, m2)
  }

  lemma SplitWrites(m: Mem, bs: Blocks, lo: nat, hi: nat, i: nat, size: nat, rest: Block, own: Block, m2: Mem, bs': Blocks, p: nat)
    requires Good(m, bs, lo, hi) && i < |bs| && size + MIN_SPLIT <= bs[i].size && size % 8 == 0
    requires rest == Block(bs[i].addr + HEADER_SIZE + size, bs[i].size - size - HEADER_SIZE, true)
    requires own == Block(bs[i].addr, size, bs[i].free)
    requires SplitWritten(m, rest, own, NextAddr(bs, i), m2)
    requires bs' == Split(bs, i, size) && p == bs[i].Ptr()
    ensures m2.Keys == m.Keys && Good(m2, bs', lo, hi) && SameElse(m, bs, m2, bs', p)
    ensures i < |bs'| && bs'[i] == own && SamePayload(m, m2, bs'[i])
  {
    var m1 :| HeaderWritten(m, rest, NextAddr(bs, i), m1) && HeaderWritten(m1, own, rest.addr, m2);
    assert bs'[i] == own && bs'[i + 1] == rest;
    HeaderSame(m1, m2, bs'[i + 1], NextAddr(bs, i));
    forall k: nat | k < bs[i].addr || bs[i].Ptr() <= k < bs[i].Ptr() + size || k >= bs[i].End()
      ensures SameAt(m, m2, k)
    {
      assert SameAt(m, m1, k) && SameAt(m1, m2, k);
    }
    SplitStep(m, bs, lo, hi, i, size, m2);
  }

  /** `m'` is `m` with the header of `b` in place and nothing else changed. */
  ghost predicate HeaderWritten(m: Mem, b: Block, next: nat, m': Mem) {
    HeaderAt(m', b, next) && m'.Keys == m.Keys && SameOutside(m, m', b.addr, b.addr + HEADER_SIZE)
  }

  lemma FlagStep(m: Mem, bs: Blocks, lo: nat, hi: nat, i: nat, flagged: Block, m': Mem)
    requires Good(m, bs, lo, hi) && i < |bs|
    requires flagged == Block(bs[i].addr, bs[i].size, flagged.free)
    requires HeaderWritten(m, flagged, NextAddr(bs, i), m')
    ensures Good(m', SetFree(bs, i, flagged.free), lo, hi)
    ensures SameElse(m, bs, m', SetFree(bs, i, flagged.free), bs[i].Ptr())
  {
    SetFreeLayout(bs, i, flagged.free, lo, hi);
    SetFreeHeaders(m, m', bs, i, flagged.free, lo, hi);
    SetFreeKeeps(bs, i, flagged.free);
    ConfinedEdit(m, m', bs, SetFree(bs, i, flagged.free), lo, hi, i);
  }

  /** The flag byte of block `i` written, as a whole. */
  lemma FlagWritten(m: Mem, bs: Blocks, lo: nat, hi: nat, i: nat, free: bool, v: byte, m': Mem, bs': Blocks, p: nat)
    requires Good(m, bs, lo, hi) && i < |bs| && bs' == SetFree(bs, i, free) && p == bs[i].Ptr()
    requires ByteSet(m, bs[i].addr + 8, v, m') && v == (if free then 1 else 0)
    ensures Good(m', bs', lo, hi) && m'.Keys == m.Keys && SameElse(m, bs, m', bs', p)
    ensures SameOutside(m, m', bs[i].addr, p)
  {
    var flagged := Block(bs[i].addr, bs[i].size, free);
    Fields(m, bs, lo, hi, i);
    FlagSet(m, m', flagged, NextAddr(bs, i));
    FlagStep(m, bs, lo, hi, i, flagged, m');
  }

  /** Writes inside the payload of block `i` keep the list. */
  lemma PayloadStep(m: Mem, bs: Blocks, lo: nat, hi: nat, i: nat, m': Mem)
    requires Good(m, bs, lo, hi) && i < |bs|
    requires m'.Keys == m.Keys && SameOutside(m, m', bs[i].Ptr(), bs[i].End())
    ensures Good(m', bs, lo, hi)
    ensures SameElse(m, bs, m', bs, bs[i].Ptr())
  {
    forall j | 0 <= j < |bs| ensures HeaderOf(m', bs, j) {
      assert HeaderOf(m, bs, j);
      if j != i {
        OtherHeader(m, m', bs, lo, hi, i, j, NextAddr(bs, j));
      } else {
        HeaderSame(m, m', bs[j], NextAddr(bs, j));
      }
    }
    ConfinedEdit(m, m', bs, bs, lo, hi, i);
  }

  /** The mapped region has grown past the last block. */
  lemma GoodGrows(m: Mem, bs: Blocks, lo: nat, hi: nat, m': Mem, hi': nat, p: nat)
    requires Good(m, bs, lo, hi) && hi <= hi' < WORD_LIMIT
    requires forall k: nat :: lo <= k < hi' ==> k in m'
    requires forall k: nat :: k < hi ==> SameAt(m, m', k)
    ensures Good(m', bs, lo, hi')
    ensures SameElse(m, bs, m', bs, p)
  {
    forall j | 0 <= j < |bs| ensures HeaderOf(m', bs, j) {
      assert HeaderOf(m, bs, j) && PlacedAt(bs, lo, hi, j);
      HeaderSame(m, m', bs[j], NextAddr(bs, j));
    }
    forall j: int ensures PlacedAt(bs, lo, hi', j) {
      assert PlacedAt(bs, lo, hi, j);
    }
    forall b: Block ensures KeptBlock(m, bs, m', bs, p, b) {
      if b in bs {
        var j :| 0 <= j < |bs| && bs[j] == b;
        assert PlacedAt(bs, lo, hi, j);
      }
    }
  }

  lemma AppendLayout(bs: Blocks, b: Block, lo: nat, mid: nat, hi: nat)
    requires Layout(bs, lo, mid) && Placed(b, mid, hi) && lo <= mid <= hi < WORD_LIMIT
    ensures Layout(bs + [b], lo, hi)
  {
    var bs' := bs + [b];
    forall k: int ensures PlacedAt(bs', lo, hi, k) {
      assert PlacedAt(bs, lo, mid, k);
    }
    forall i, j | 0 <= i < j < |bs'| ensures Before(bs', i, j) {
      if j < |bs| {
        assert Before(bs, i, j);
      } else {
        assert PlacedAt(bs, lo, mid, i);
      }
    }
  }

  /** A new last block: its header first, then the old tail's link. */
  lemma AppendStep(m: Mem, bs: Blocks, b: Block, lo: nat, mid: nat, hi: nat, m1: Mem, m2: Mem)
    requires Good(m, bs, lo, mid) && Placed(b, mid, hi) && lo <= mid <= hi < WORD_LIMIT
    requires forall k: nat :: lo <= k < hi ==> k in m
    requires HeaderWritten(m, b, 0, m1)
    requires if bs == [] then m2 == m1 else WordSet(m1, bs[|bs| - 1].addr + 16, b.addr, m2)
    ensures Good(m2, bs + [b], lo, hi)
    ensures SameElse(m, bs, m2, bs + [b], b.Ptr())
  {
    AppendLayout(bs, b, lo, mid, hi);
    if bs != [] {
      var t := |bs| - 1;
      assert HeaderOf(m, bs, t) && PlacedAt(bs, lo, mid, t);
      HeaderSame(m, m1, bs[t], 0);
      WordSame(m1, m2, bs[t].addr);
      assert SameAt(m1, m2, bs[t].addr + 8);
      HeaderSame(m1, m2, b, 0);
      forall k: nat | k < b.addr && !(bs[t].addr <= k < bs[t].addr + HEADER_SIZE) ensures SameAt(m, m2, k) {
        assert SameAt(m, m1, k) && SameAt(m1, m2, k);
      }
    }
    AppendHeaders(m, m2, bs, b, lo, hi);
    forall c: Block ensures KeptBlock(m, bs, m2, bs + [b], b.Ptr(), c) {
      if c in bs {
        AppendKeeps(m, bs, b, lo, mid, m2, c);
      }
    }
  }

  lemma AppendKeeps(m: Mem, bs: Blocks, b: Block, lo: nat, mid: nat, m2: Mem, c: Block)
    requires Layout(bs, lo, mid) && bs != [] && c in bs && mid <= b.addr
    requires forall k: nat :: k < b.addr ==>
      (bs[|bs| - 1].addr <= k < bs[|bs| - 1].addr + HEADER_SIZE) || SameAt(m, m2, k)
    ensures SamePayload(m, m2, c)
  {
    var j :| 0 <= j < |bs| && bs[j] == c;
    assert PlacedAt(bs, lo, mid, j);
    assert j < |bs| - 1 ==> Before(bs, j, |bs| - 1);
  }
}
