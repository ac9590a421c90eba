/** What merging and splitting do to the block list of the user heap, beyond keeping it in order: which
    blocks go, and that no byte is lost. */
module BlockLaws {
  import opened BlockList

  /** The block with a given payload address; `|bs|` when there is none. */
  function PtrIndex(bs: Blocks, p: nat, from: nat := 0): (i: nat)
    requires from <= |bs|
    ensures from <= i <= |bs| && (i < |bs| ==> bs[i].Ptr() == p) && forall j :: from <= j < i ==> bs[j].Ptr() != p
    decreases |bs| - from
  {
    if from == |bs| || bs[from].Ptr() == p then from else PtrIndex(bs, p, from + 1)
  }

  lemma OnePtr(bs: Blocks, lo: nat, hi: nat, i: nat)
    requires Layout(bs, lo, hi) && i < |bs|
    ensures PtrIndex(bs, bs[i].Ptr()) == i
  {
    forall j | 0 <= j < i ensures bs[j].Ptr() != bs[i].Ptr() {
      assert Before(bs, j, i);
    }
  }

  // ----- nothing is lost -----

  /** Bytes of all blocks, their 24-byte headers included. */
  function Footprint(bs: Blocks): nat {
    if bs == [] then 0 else 24 + bs[0].size + Footprint(bs[1..])
  }

  /** Merging takes in free blocks only, as many as follow, and loses no byte of any block. */
  lemma {:induction false} CoalescedLaw(bs: Blocks, i: nat) returns (d: nat)
    requires i < |bs|
    ensures i + d < |bs| && (forall j :: i < j <= i + d ==> bs[j].free) && (i + d + 1 < |bs| ==> !bs[i + d + 1].free)
    ensures Coalesced(bs, i)[..i] == bs[..i] && Coalesced(bs, i)[i + 1..] == bs[i + 1 + d..]
    ensures Footprint(Coalesced(bs, i)) == Footprint(bs)
    decreases |bs|
  {
    d := 0;
    if i + 1 < |bs| && bs[i + 1].free {
      var more := CoalescedLaw(Merge(bs, i), i);
      MergeFootprint(bs, i);
      d := more + 1;
      forall j | i < j <= i + d ensures bs[j].free {
        assert j > i + 1 ==> bs[j] == Merge(bs, i)[j - 1];
      }
    }
  }

  lemma {:induction false} MergeFootprint(bs: Blocks, i: nat)
    requires i + 1 < |bs|
    ensures Footprint(Merge(bs, i)) == Footprint(bs)
  {
    if i == 0 {
      assert Merge(bs, 0)[1..] == bs[2..] && bs[1..][1..] == bs[2..];
    } else {
      assert Merge(bs, i)[0] == bs[0] && Merge(bs, i)[1..] == Merge(bs[1..], i - 1);
      MergeFootprint(bs[1..], i - 1);
    }
  }

  lemma {:induction false} SplitFootprint(bs: Blocks, i: nat, size: nat)
    requires i < |bs| && size + MIN_SPLIT <= bs[i].size
    ensures Footprint(Split(bs, i, size)) == Footprint(bs)
  {
    if i == 0 {
      assert Split(bs, 0, size)[1..][1..] == bs[1..];
    } else {
      assert Split(bs, i, size)[0] == bs[0] && Split(bs, i, size)[1..] == Split(bs[1..], i - 1, size);
      SplitFootprint(bs[1..], i - 1, size);
    }
  }

  /** A block is cut down to the request, and the rest is a free block behind it, exactly when 40
      bytes or more are left over; no byte of any block is lost. */
  lemma TrimmedLaw(bs: Blocks, i: nat, size: nat)
    requires i < |bs| && bs[i].size >= size
    ensures size <= Trimmed(bs, i, size)[i].size < size + 40
    ensures bs[i].size < size + 40 ==> Trimmed(bs, i, size) == bs
    ensures bs[i].size >= size + 40 ==>
      Trimmed(bs, i, size) ==
        bs[..i] + [Block(bs[i].addr, size, bs[i].free), Block(bs[i].addr + 24 + size, bs[i].size - size - 24, true)] + bs[i + 1..]
    ensures Footprint(Trimmed(bs, i, size)) == Footprint(bs)
  {
    if bs[i].size >= size + 40 {
      SplitFootprint(bs, i, size);
    }
  }

  // ----- growing in place -----

  ghost predicate AllFree(bs: Blocks, from: nat, to: nat) {
    forall j :: from <= j < to && j < |bs| ==> bs[j].free
  }

  lemma {:induction false} FootprintConcat(a: Blocks, b: Blocks)
    ensures Footprint(a + b) == Footprint(a) + Footprint(b)
  {
    if a == [] {
      assert a + b == b;
    } else {
      assert (a + b)[1..] == a[1..] + b;
      FootprintConcat(a[1..], b);
    }
  }

  /** Where a list is cut, the parts add up. */
  lemma FootprintCut(bs: Blocks, i: nat)
    requires i <= |bs|
    ensures Footprint(bs) == Footprint(bs[..i]) + Footprint(bs[i..])
  {
    assert bs == bs[..i] + bs[i..];
    FootprintConcat(bs[..i], bs[i..]);
  }

  /** The merged block holds all bytes of the blocks it took in. */
  lemma CoalescedHolds(bs: Blocks, i: nat) returns (d: nat)
    requires i < |bs|
    ensures i + d < |bs| && AllFree(bs, i + 1, i + d + 1) && (i + d + 1 < |bs| ==> !bs[i + d + 1].free)
    ensures Coalesced(bs, i)[i].size + 24 == Footprint(bs[i..i + d + 1])
  {
    d := CoalescedLaw(bs, i);
    var c := Coalesced(bs, i);
    FootprintCut(bs, i);
    FootprintCut(bs[i..], d + 1);
    assert bs[i..][..d + 1] == bs[i..i + d + 1] && bs[i..][d + 1..] == bs[i + d + 1..];
    FootprintCut(c, i);
    assert c[i..][0] == c[i] && c[i..][1..] == c[i + 1..];
  }

  lemma {:induction false} FootprintGrows(bs: Blocks, n: nat)
    requires n <= |bs|
    ensures Footprint(bs[..n]) <= Footprint(bs)
  {
    FootprintCut(bs, n);
  }

  /** Some free blocks right behind block `i` hold, with it, `n` bytes. */
  ghost predicate RoomBehind(bs: Blocks, i: nat, n: nat, d: nat) {
    i + d < |bs| && AllFree(bs, i + 1, i + d + 1) && Footprint(bs[i..i + d + 1]) >= n + 24
  }

  /** A block can grow to `n` bytes by merging exactly when it and free blocks right behind it hold
      that many, the headers of those blocks included. */
  lemma GrowsIff(bs: Blocks, i: nat, n: nat)
    requires i < |bs|
    ensures Coalesced(bs, i)[i].size >= n <==> exists d: nat :: RoomBehind(bs, i, n, d)
  {
    var most := CoalescedHolds(bs, i);
    forall d: nat | RoomBehind(bs, i, n, d) ensures Coalesced(bs, i)[i].size >= n {
      assert d <= most;
      assert bs[i..i + most + 1][..d + 1] == bs[i..i + d + 1];
      FootprintGrows(bs[i..i + most + 1], d + 1);
    }
    assert Coalesced(bs, i)[i].size >= n ==> RoomBehind(bs, i, n, most);
  }
}
