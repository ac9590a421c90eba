/** Whole runs of the virtual memory manager: any sequence of mapping, unmapping and space
    creation, in either half, in any space. */
module VmRuns {
  import opened PageTables
  import opened TableProofs
  import opened VmSteps

  datatype Op = Write(root: nat, virt: nat, e: Pte) | Create(n: nat)

  ghost predicate Step(s: Vm, op: Op, s': Vm, kernel: nat) {
    match op
    case Write(root, virt, e) => Writes(s, s', root, virt, e)
    case Create(n) => Creates(s, s', kernel, n)
  }

  ghost predicate IsRun(states: seq<Vm>, ops: seq<Op>, kernel: nat) {
    && |states| == |ops| + 1
    && WellFormed(states[0])
    && forall i: nat :: RunStep(states, ops, kernel, i)
  }

  ghost predicate RunStep(states: seq<Vm>, ops: seq<Op>, kernel: nat, i: nat) {
    i < |ops| && i + 1 < |states| ==> Step(states[i], ops[i], states[i + 1], kernel)
  }

  lemma Prefix(states: seq<Vm>, ops: seq<Op>, kernel: nat, k: nat)
    requires IsRun(states, ops, kernel) && k <= |ops|
    ensures IsRun(states[..k + 1], ops[..k], kernel)
  {
    var states', ops' := states[..k + 1], ops[..k];
    forall i: nat ensures RunStep(states', ops', kernel, i) {
      assert RunStep(states, ops, kernel, i);
    }
  }

  ghost function LowerHalf(view: map<nat, Pte>): map<nat, Pte> {
    map n | n in view && n < HALF :: view[n]
  }

  /** The user part of every address space. */
  ghost function UserSpaces(s: Vm): map<nat, map<nat, Pte>> {
    map q | q in s.labels && s.labels[q].Root? :: LowerHalf(View(s.tables, q))
  }

  /** The specification: one map per space, and an operation touches one key of one map. */
  ghost function Apply(spaces: map<nat, map<nat, Pte>>, op: Op): map<nat, map<nat, Pte>> {
    match op
    case Write(root, virt, e) =>
      if root in spaces && Vpn(virt) < HALF then spaces[root := Put(spaces[root], Vpn(virt), e)] else spaces
    case Create(n) => spaces[n := map[]]
  }

  ghost function ApplyAll(spaces: map<nat, map<nat, Pte>>, ops: seq<Op>): map<nat, map<nat, Pte>> {
    if ops == [] then spaces else Apply(ApplyAll(spaces, ops[..|ops| - 1]), ops[|ops| - 1])
  }

  lemma LowerPut(view: map<nat, Pte>, n: nat, e: Pte)
    ensures LowerHalf(Put(view, n, e)) == if n < HALF then Put(LowerHalf(view), n, e) else LowerHalf(view)
  {}

  lemma WriteLower(s: Vm, s': Vm, root: nat, virt: nat, e: Pte, q: nat)
    requires WellFormed(s) && Writes(s, s', root, virt, e) && IsRoot(s.labels, q)
    ensures LowerHalf(View(s'.tables, q)) ==
      if q == root && Vpn(virt) < HALF then Put(LowerHalf(View(s.tables, q)), Vpn(virt), e)
      else LowerHalf(View(s.tables, q))
  {
    assert WrittenView(s, s', root, virt, e, q);
    HalfOfSlot(virt);
    LowerPut(View(s.tables, q), Vpn(virt), e);
    if Shares(s', root, q, virt) && Slot(virt, 4) < 256 {
      LowHalfPrivate(s'.tables, s'.labels, root, q, Slot(virt, 4));
    }
  }

  lemma WriteRefines(s: Vm, s': Vm, root: nat, virt: nat, e: Pte)
    requires WellFormed(s) && Writes(s, s', root, virt, e)
    ensures UserSpaces(s') == Apply(UserSpaces(s), Write(root, virt, e))
  {
    assert forall q :: q in UserSpaces(s) <==> IsRoot(s.labels, q);
    assert forall q :: q in UserSpaces(s') <==> IsRoot(s'.labels, q);
    forall q | q in UserSpaces(s)
      ensures UserSpaces(s')[q] == Apply(UserSpaces(s), Write(root, virt, e))[q]
    {
      WriteLower(s, s', root, virt, e, q);
    }
  }

  lemma LowerOfUpper(view: map<nat, Pte>)
    ensures LowerHalf(UpperHalf(view)) == map[]
  {}

  lemma SpaceMember(s: Vm, q: nat)
    ensures q in UserSpaces(s) <==> IsRoot(s.labels, q)
    ensures q in UserSpaces(s) ==> UserSpaces(s)[q] == LowerHalf(View(s.tables, q))
  {}

  lemma CreatedMember(s: Vm, s': Vm, kernel: nat, n: nat, q: nat)
    requires Creates(s, s', kernel, n)
    ensures q in UserSpaces(s') <==> q in UserSpaces(s) || q == n
    ensures q in UserSpaces(s) && q != n ==> UserSpaces(s')[q] == UserSpaces(s)[q]
    ensures q == n ==> UserSpaces(s')[q] == map[]
  {
    SpaceMember(s, q);
    SpaceMember(s', q);
    if q == n {
      LowerOfUpper(View(s.tables, kernel));
    } else {
      assert SameView(s, s', q);
    }
  }

  lemma CreateRefines(s: Vm, s': Vm, kernel: nat, n: nat)
    requires Creates(s, s', kernel, n)
    ensures UserSpaces(s') == Apply(UserSpaces(s), Create(n))
  {
    var a, b := UserSpaces(s), UserSpaces(s');
    forall q: nat ensures (q in b <==> q in a || q == n) && (q in b ==> b[q] == if q == n then map[] else a[q]) {
      CreatedMember(s, s', kernel, n, q);
    }
  }

  lemma StepRefines(s: Vm, op: Op, s': Vm, kernel: nat)
    requires WellFormed(s) && Step(s, op, s', kernel)
    ensures WellFormed(s') && UserSpaces(s') == Apply(UserSpaces(s), op)
  {
    match op
    case Write(root, virt, e) => WriteRefines(s, s', root, virt, e);
    case Create(n) => CreateRefines(s, s', kernel, n);
  }

  /** The tables refine the maps: after any run the user half of every space is what replaying
      the operations on plain maps gives, and the tables are still a tree. */
  lemma {:induction false} RunRefines(states: seq<Vm>, ops: seq<Op>, kernel: nat)
    requires IsRun(states, ops, kernel)
    ensures WellFormed(states[|ops|])
    ensures UserSpaces(states[|ops|]) == ApplyAll(UserSpaces(states[0]), ops)
  {
    if ops != [] {
      var k := |ops| - 1;
      Prefix(states, ops, kernel, k);
      RunRefines(states[..k + 1], ops[..k], kernel);
      assert RunStep(states, ops, kernel, k);
      StepRefines(states[k], ops[k], states[k + 1], kernel);
    }
  }

  /** Isolation: a run in which nobody writes into space `q` itself leaves every user-half
      translation of `q` as it was. */
  lemma {:induction false} Isolation(states: seq<Vm>, ops: seq<Op>, kernel: nat, q: nat)
    requires IsRun(states, ops, kernel) && IsRoot(states[0].labels, q)
    requires forall i :: 0 <= i < |ops| && ops[i].Write? ==> ops[i].root != q
    ensures IsRoot(states[|ops|].labels, q)
    ensures LowerHalf(View(states[|ops|].tables, q)) == LowerHalf(View(states[0].tables, q))
  {
    if ops != [] {
      var k := |ops| - 1;
      Prefix(states, ops, kernel, k);
      Isolation(states[..k + 1], ops[..k], kernel, q);
      RunRefines(states[..k + 1], ops[..k], kernel);
      assert RunStep(states, ops, kernel, k);
      assert LabelKept(states[k], states[k + 1], q);
      match ops[k]
      case Write(root, virt, e) => WriteLower(states[k], states[k + 1], root, virt, e, q);
      case Create(n) => assert SameView(states[k], states[k + 1], q);
    }
  }

  lemma {:induction false} RootEntryStays(states: seq<Vm>, ops: seq<Op>, kernel: nat, i: nat, j: nat, q: nat, k: nat)
    requires IsRun(states, ops, kernel) && i <= j <= |ops| && k < 512
    requires IsRoot(states[i].labels, q) && q in states[i].tables && Present(states[i].tables[q][k])
    ensures IsRoot(states[j].labels, q) && q in states[j].tables && states[j].tables[q][k] == states[i].tables[q][k]
    decreases j
  {
    if i < j {
      RootEntryStays(states, ops, kernel, i, j - 1, q, k);
      assert RunStep(states, ops, kernel, j - 1);
      assert LabelKept(states[j - 1], states[j], q) && EntryKept(states[j - 1], states[j], q, k);
    }
  }

  /** The kernel half is common: a slot the kernel's table had filled when space `n` was created
      translates the same through `n` and through the kernel's space in every later state. */
  lemma KernelHalfShared(states: seq<Vm>, ops: seq<Op>, kernel: nat, i: nat, j: nat, virt: nat)
    requires IsRun(states, ops, kernel) && i < j <= |ops| && ops[i].Create?
    requires kernel in states[i].tables && Slot(virt, 4) >= 256 && Present(states[i].tables[kernel][Slot(virt, 4)])
    ensures Lookup(states[j].tables, ops[i].n, virt) == Lookup(states[j].tables, kernel, virt)
  {
    var n, k := ops[i].n, Slot(virt, 4);
    assert RunStep(states, ops, kernel, i);
    assert LabelKept(states[i], states[i + 1], kernel) && EntryKept(states[i], states[i + 1], kernel, k);
    RootEntryStays(states, ops, kernel, i + 1, j, kernel, k);
    RootEntryStays(states, ops, kernel, i + 1, j, n, k);
  }

  // ----- the whole of every space -----

  /** The write reached space `q`: the two spaces share the directory of the address. */
  predicate Reaches(s': Vm, op: Op, q: nat) {
    op.Write? && Shares(s', op.root, q, op.virt)
  }

  /** The map of a space after replaying, on a plain map, exactly the writes that reach it. */
  ghost function Replay(states: seq<Vm>, ops: seq<Op>, q: nat, view: map<nat, Pte>, i: nat, j: nat): map<nat, Pte>
    requires i <= j <= |ops| < |states|
    decreases j
  {
    if i == j then view
    else
      var before := Replay(states, ops, q, view, i, j - 1);
      if Reaches(states[j], ops[j - 1], q) then Put(before, Vpn(ops[j - 1].virt), ops[j - 1].e) else before
  }

  lemma StepView(s: Vm, op: Op, s': Vm, kernel: nat, q: nat)
    requires Step(s, op, s', kernel) && IsRoot(s.labels, q)
    ensures IsRoot(s'.labels, q)
    ensures View(s'.tables, q) == if Reaches(s', op, q) then Put(View(s.tables, q), Vpn(op.virt), op.e) else View(s.tables, q)
  {
    assert LabelKept(s, s', q);
    match op
    case Write(root, virt, e) => assert WrittenView(s, s', root, virt, e, q);
    case Create(n) => assert SameView(s, s', q);
  }

  /** In every run the tables refine, for every space and over all of bits 12 to 47, the map that
      replays exactly the writes that reach the space. */
  lemma {:induction false} RunRefinesWhole(states: seq<Vm>, ops: seq<Op>, kernel: nat, q: nat, i: nat, j: nat)
    requires IsRun(states, ops, kernel) && i <= j <= |ops| && IsRoot(states[i].labels, q)
    ensures IsRoot(states[j].labels, q)
    ensures View(states[j].tables, q) == Replay(states, ops, q, View(states[i].tables, q), i, j)
    decreases j
  {
    if i < j {
      RunRefinesWhole(states, ops, kernel, q, i, j - 1);
      assert RunStep(states, ops, kernel, j - 1);
      StepView(states[j - 1], ops[j - 1], states[j], kernel, q);
    }
  }

  /** A space starts with an open lower half and keeps it: in every run, no huge entry stands on the
      path of any user address of a space that was created in it, and every table on it lets the user
      read and write. */
  lemma {:induction false} CreatedStaysOpen(states: seq<Vm>, ops: seq<Op>, kernel: nat, i: nat, j: nat, v: nat)
    requires IsRun(states, ops, kernel) && i < j <= |ops| && ops[i].Create? && Vpn(v) < HALF
    ensures IsRoot(states[j].labels, ops[i].n)
    ensures Walkable(states[j].tables, ops[i].n, v, 4) && Passes(states[j].tables, ops[i].n, v, 4, true)
    decreases j
  {
    var n := ops[i].n;
    assert RunStep(states, ops, kernel, j - 1);
    if j == i + 1 {
      EmptyLowerOpen(states[j].tables, n, v);
    } else {
      CreatedStaysOpen(states, ops, kernel, i, j - 1, v);
      assert LabelKept(states[j - 1], states[j], n) && SpaceWalkable(states[j - 1], states[j], n, v);
    }
  }

  /** Which writes reach a space: its own, always, and in the lower half no others. */
  lemma ReachesWhom(s: Vm, op: Op, s': Vm, kernel: nat, q: nat)
    requires WellFormed(s) && Step(s, op, s', kernel) && op.Write? && IsRoot(s.labels, q)
    ensures op.root == q ==> Reaches(s', op, q)
    ensures Vpn(op.virt) < HALF ==> (Reaches(s', op, q) <==> op.root == q)
  {
    HalfOfSlot(op.virt);
    assert LabelKept(s, s', q) && LabelKept(s, s', op.root);
    if Reaches(s', op, q) && Slot(op.virt, 4) < 256 {
      LowHalfPrivate(s'.tables, s'.labels, op.root, q, Slot(op.virt, 4));
    }
  }

  /** Full isolation: lower-half writes in other spaces change no translation of `q`, in either half. */
  lemma {:induction false} WholeIsolation(states: seq<Vm>, ops: seq<Op>, kernel: nat, q: nat)
    requires IsRun(states, ops, kernel) && IsRoot(states[0].labels, q)
    requires forall i :: 0 <= i < |ops| && ops[i].Write? ==> ops[i].root != q && Vpn(ops[i].virt) < HALF
    ensures IsRoot(states[|ops|].labels, q) && View(states[|ops|].tables, q) == View(states[0].tables, q)
  {
    if ops != [] {
      var k := |ops| - 1;
      Prefix(states, ops, kernel, k);
      WholeIsolation(states[..k + 1], ops[..k], kernel, q);
      RunRefines(states[..k + 1], ops[..k], kernel);
      assert RunStep(states, ops, kernel, k);
      StepView(states[k], ops[k], states[k + 1], kernel, q);
      if ops[k].Write? {
        ReachesWhom(states[k], ops[k], states[k + 1], kernel, q);
      }
    }
  }
}
