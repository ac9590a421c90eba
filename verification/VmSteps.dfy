/** The steps of the virtual memory manager as relations between table states, stated on the
    address spaces as maps. */
module VmSteps {
  import opened Outcomes
  import opened PageTables
  import opened TableProofs

  /** Tables with the labels that show them to be a tree. */
  datatype Vm = Vm(tables: Tables, labels: Labels)

  ghost predicate WellFormed(s: Vm) {
    Tree(s.tables, s.labels)
  }

  /** Nothing is lost: tables stay, keep their place in the tree, and above the last level keep
      their present entries. */
  ghost predicate Extends(s: Vm, s': Vm) {
    && WellFormed(s')
    && (forall f: nat :: LabelKept(s, s', f))
    && (forall f, k :: f in s.labels && 0 <= k < 512 ==> EntryKept(s, s', f, k))
  }

  ghost predicate EntryKept(s: Vm, s': Vm, f: nat, k: nat)
    requires k < 512
  {
    && f in s.tables && f in s'.tables && f in s.labels
    && (Level(s.labels[f]) > 1 && Present(s.tables[f][k]) ==> s'.tables[f][k] == s.tables[f][k])
  }

  ghost predicate LabelKept(s: Vm, s': Vm, f: nat) {
    f in s.labels ==> f in s'.labels && s'.labels[f] == s.labels[f]
  }

  ghost predicate SameRoots(s: Vm, s': Vm) {
    forall q :: IsRoot(s'.labels, q) <==> IsRoot(s.labels, q)
  }

  /** New tables may appear, but no translation changes. */
  ghost predicate Grows(s: Vm, s': Vm) {
    && Extends(s, s') && SameRoots(s, s')
    && (forall q: nat, v: nat :: SameLookup(s, s', q, v))
    && (forall f: nat, v: nat, l: nat :: StaysWalkable(s, s', f, v, l))
  }

  ghost predicate SameLookup(s: Vm, s': Vm, q: nat, v: nat) {
    IsRoot(s.labels, q) ==> Lookup(s'.tables, q, v) == Lookup(s.tables, q, v)
  }

  ghost predicate StaysWalkable(s: Vm, s': Vm, f: nat, v: nat, l: nat) {
    1 <= l <= 4 ==>
      && (Walkable(s.tables, f, v, l) ==> Walkable(s'.tables, f, v, l))
      && (Passes(s.tables, f, v, l, true) ==> Passes(s'.tables, f, v, l, true))
  }

  /** Two spaces reach `virt` through the same directory. */
  predicate Shares(s: Vm, root: nat, q: nat, virt: nat) {
    Descend(s.tables, q, Slot(virt, 4)) == Descend(s.tables, root, Slot(virt, 4))
  }

  /** Space `root` has had the entry of `virt` set to `e`: one map update, seen by the spaces that
      share the directory and by no other. */
  ghost predicate Writes(s: Vm, s': Vm, root: nat, virt: nat, e: Pte) {
    match s'
    case Vm(tables', _) =>
      && IsRoot(s.labels, root) && Extends(s, s') && SameRoots(s, s')
      && Leaf(tables', root, virt).Some?
      && (forall q: nat :: WrittenView(s, s', root, virt, e, q))
      && (forall q: nat, v: nat :: SpaceWalkable(s, s', q, v))
  }

  ghost predicate SpaceWalkable(s: Vm, s': Vm, q: nat, v: nat) {
    IsRoot(s.labels, q) ==>
      && (Walkable(s.tables, q, v, 4) ==> Walkable(s'.tables, q, v, 4))
      && (Passes(s.tables, q, v, 4, true) ==> Passes(s'.tables, q, v, 4, true))
  }

  ghost predicate WrittenView(s: Vm, s': Vm, root: nat, virt: nat, e: Pte, q: nat) {
    IsRoot(s.labels, q) ==>
      View(s'.tables, q) ==
        if Shares(s', root, q, virt) then Put(View(s.tables, q), Vpn(virt), e) else View(s.tables, q)
  }

  /** Space `n` has been created with the upper half of space `kernel`. */
  ghost predicate Creates(s: Vm, s': Vm, kernel: nat, n: nat) {
    && IsRoot(s.labels, kernel) && n !in s.labels
    && Extends(s, s')
    && (forall q :: IsRoot(s'.labels, q) <==> IsRoot(s.labels, q) || q == n)
    && n in s'.tables && kernel in s'.tables
    && (forall k :: 256 <= k < 512 ==> s'.tables[n][k] == s'.tables[kernel][k])
    && EmptyLower(s'.tables[n])
    && (forall q: nat :: SameView(s, s', q))
    && (forall q: nat, v: nat :: SpaceWalkable(s, s', q, v))
    && View(s'.tables, n) == UpperHalf(View(s.tables, kernel))
  }

  /** No entry of the lower half is present. */
  predicate EmptyLower(top: Table) {
    forall k :: 0 <= k < 256 ==> !Present(top[k])
  }

  lemma EmptyLowerOpen(t: Tables, n: nat, v: nat)
    requires n in t && EmptyLower(t[n]) && Vpn(v) < HALF
    ensures Walkable(t, n, v, 4) && Passes(t, n, v, 4, true)
  {
    HalfOfSlot(v);
  }

  ghost predicate SameView(s: Vm, s': Vm, q: nat) {
    IsRoot(s.labels, q) ==> View(s'.tables, q) == View(s.tables, q)
  }

  ghost function UpperHalf(view: map<nat, Pte>): map<nat, Pte> {
    map n | n in view && n >= HALF :: view[n]
  }

  // ----- inserting a table -----

  lemma AddTablePasses(t: Tables, f: nat, slot: nat, n: nat, g: nat, v: nat, level: nat, user: bool)
    requires f in t && slot < 512 && n !in t && 1 <= level <= 4 && !Present(t[f][slot])
    requires Passes(t, g, v, level, user)
    ensures Passes(AddTable(t, f, slot, n), g, v, level, user)
    decreases level
  {
    var t' := AddTable(t, f, slot, n);
    if level > 1 && g in t' && Present(t'[g][Slot(v, level)]) {
      assert g != n;
      if !(g == f && Slot(v, level) == slot) {
        AddTablePasses(t, f, slot, n, t[g][Slot(v, level)].frame, v, level - 1, user);
      }
    }
  }

  lemma AddTableGrows(s: Vm, f: nat, slot: nat, n: nat)
    requires WellFormed(s) && f in s.tables && Level(s.labels[f]) > 1 && slot < 512 && n !in s.tables
    requires !Present(s.tables[f][slot])
    ensures Grows(s, Vm(AddTable(s.tables, f, slot, n), s.labels[n := ChildLabel(f, s.labels[f], slot)]))
  {
    var s' := Vm(AddTable(s.tables, f, slot, n), s.labels[n := ChildLabel(f, s.labels[f], slot)]);
    AddTableTree(s.tables, s.labels, f, slot, n);
    forall q: nat, v: nat
      ensures SameLookup(s, s', q, v)
    {
      if IsRoot(s.labels, q) {
        AddTableLookup(s.tables, s.labels, f, slot, n, q, v);
      }
    }
    forall g: nat, v: nat, l: nat
      ensures StaysWalkable(s, s', g, v, l)
    {
      if 1 <= l <= 4 && Walkable(s.tables, g, v, l) {
        AddTablePasses(s.tables, f, slot, n, g, v, l, false);
      }
      if 1 <= l <= 4 && Passes(s.tables, g, v, l, true) {
        AddTablePasses(s.tables, f, slot, n, g, v, l, true);
      }
    }
  }

  lemma GrowsTrans(a: Vm, b: Vm, c: Vm)
    requires Grows(a, b) && Grows(b, c)
    ensures Grows(a, c)
  {
    forall f: nat
      ensures LabelKept(a, c, f)
    {
      assert LabelKept(a, b, f) && LabelKept(b, c, f);
    }
    forall f, k | f in a.labels && 0 <= k < 512
      ensures EntryKept(a, c, f, k)
    {
      assert LabelKept(a, b, f) && EntryKept(a, b, f, k) && EntryKept(b, c, f, k);
    }
    forall q: nat, v: nat
      ensures SameLookup(a, c, q, v)
    {
      assert SameLookup(a, b, q, v) && SameLookup(b, c, q, v);
    }
    forall f: nat, v: nat, l: nat
      ensures StaysWalkable(a, c, f, v, l)
    {
      assert StaysWalkable(a, b, f, v, l) && StaysWalkable(b, c, f, v, l);
    }
  }

  lemma GrowsRefl(s: Vm)
    requires WellFormed(s)
    ensures Grows(s, s)
  {}

  lemma GrowsView(s: Vm, s': Vm, q: nat)
    requires Grows(s, s') && IsRoot(s.labels, q)
    ensures View(s'.tables, q) == View(s.tables, q)
  {
    forall n: nat | n < VPN_COUNT
      ensures LookupPage(s'.tables, q, n) == LookupPage(s.tables, q, n)
    {
      assert SameLookup(s, s', q, n * 0x1000);
    }
  }

  // ----- writing a leaf -----

  lemma WriteExtends(s: Vm, m: Vm, s': Vm, pt: nat, slot: nat, e: Pte)
    requires Grows(s, m) && WellFormed(s) && pt in m.tables && slot < 512 && Level(m.labels[pt]) == 1
    requires s' == Vm(SetEntry(m.tables, pt, slot, e), m.labels)
    ensures Extends(s, s') && SameRoots(s, s')
  {
    SetLeafTree(m.tables, m.labels, pt, slot, e);
    forall f: nat ensures LabelKept(s, s', f) {
      assert LabelKept(s, m, f);
    }
    forall f, k | f in s.labels && 0 <= k < 512
      ensures EntryKept(s, s', f, k)
    {
      assert LabelKept(s, m, f) && EntryKept(s, m, f, k);
    }
  }

  /** A walk that added tables followed by a leaf write is one map update. */
  lemma GrowThenWrite(s: Vm, m: Vm, s': Vm, root: nat, virt: nat, e: Pte)
    requires WellFormed(s) && Grows(s, m) && IsRoot(s.labels, root)
    requires Leaf(m.tables, root, virt).Some? && Leaf(m.tables, root, virt).value in m.tables
    requires s' == Vm(SetEntry(m.tables, Leaf(m.tables, root, virt).value, Slot(virt, 1), e), m.labels)
    ensures Writes(s, s', root, virt, e)
  {
    var pt := Leaf(m.tables, root, virt).value;
    var dir, pd := WalkLabels(m.tables, m.labels, root, virt);
    WriteExtends(s, m, s', pt, Slot(virt, 1), e);
    SetLeafWalk(m.tables, m.labels, pt, Slot(virt, 1), e, root, virt);
    forall q: nat
      ensures WrittenView(s, s', root, virt, e, q)
    {
      if IsRoot(s.labels, q) {
        SetLeafWalk(m.tables, m.labels, pt, Slot(virt, 1), e, q, virt);
        LeafWriteView(m.tables, m.labels, root, virt, e, q);
        GrowsView(s, m, q);
      }
    }
    forall q: nat, v: nat
      ensures SpaceWalkable(s, s', q, v)
    {
      assert StaysWalkable(s, m, q, v, 4) && LabelKept(s, m, q);
      if IsRoot(s.labels, q) && Walkable(s.tables, q, v, 4) {
        SetLeafPasses(m.tables, m.labels, pt, Slot(virt, 1), e, q, v, 4, false);
      }
      if IsRoot(s.labels, q) && Passes(s.tables, q, v, 4, true) {
        SetLeafPasses(m.tables, m.labels, pt, Slot(virt, 1), e, q, v, 4, true);
      }
    }
  }

  /** Apart from space `root`, every space translates as before; and no path was closed. */
  ghost predicate Elsewhere(s: Vm, s': Vm, root: nat) {
    && WellFormed(s')
    && (forall q: nat :: Untouched(s, s', root, q))
    && (forall q: nat, v: nat :: SpaceWalkable(s, s', q, v))
  }

  ghost predicate Untouched(s: Vm, s': Vm, root: nat, q: nat) {
    IsRoot(s.labels, q) ==> IsRoot(s'.labels, q) && (q != root ==> View(s'.tables, q) == View(s.tables, q))
  }

  /** A lower-half write is seen in its own space only. */
  lemma PrivateWrite(s: Vm, s': Vm, root: nat, virt: nat, e: Pte)
    requires WellFormed(s) && Writes(s, s', root, virt, e) && Vpn(virt) < HALF
    ensures Elsewhere(s, s', root)
  {
    HalfOfSlot(virt);
    forall q: nat ensures Untouched(s, s', root, q) {
      assert LabelKept(s, s', q) && LabelKept(s, s', root) && WrittenView(s, s', root, virt, e, q);
      if IsRoot(s.labels, q) && Shares(s', root, q, virt) {
        LowHalfPrivate(s'.tables, s'.labels, root, q, Slot(virt, 4));
      }
    }
  }

  lemma ElsewhereRefl(s: Vm, root: nat)
    requires WellFormed(s)
    ensures Elsewhere(s, s, root)
  {}

  lemma ElsewhereTrans(a: Vm, b: Vm, c: Vm, root: nat)
    requires Elsewhere(a, b, root) && Elsewhere(b, c, root)
    ensures Elsewhere(a, c, root)
  {
    forall q: nat ensures Untouched(a, c, root, q) {
      assert Untouched(a, b, root, q) && Untouched(b, c, root, q);
    }
    forall q: nat, v: nat ensures SpaceWalkable(a, c, q, v) {
      assert Untouched(a, b, root, q) && SpaceWalkable(a, b, q, v) && SpaceWalkable(b, c, q, v);
    }
  }

  // ----- a new space -----

  /** A top-level table with an empty lower half and the given upper half. */
  predicate CopiesUpper(t: Table, src: Table) {
    forall k :: 0 <= k < 512 ==> t[k] == if k < 256 then ABSENT else src[k]
  }

  lemma NewSpaceTree(s: Vm, kernel: nat, n: nat, top: Table)
    requires WellFormed(s) && IsRoot(s.labels, kernel) && n !in s.tables && CopiesUpper(top, s.tables[kernel])
    ensures WellFormed(Vm(s.tables[n := top], s.labels[n := Root]))
  {
    var t', lab' := s.tables[n := top], s.labels[n := Root];
    forall f, k | f in t' && 0 <= k < 512
      ensures EntryOk(t', lab', f, k)
    {
      assert EntryOk(s.tables, s.labels, if f == n then kernel else f, k);
    }
  }

  lemma NewSpaceLookup(s: Vm, kernel: nat, n: nat, top: Table, q: nat, v: nat)
    requires WellFormed(s) && IsRoot(s.labels, kernel) && n !in s.tables && CopiesUpper(top, s.tables[kernel])
    requires IsRoot(s.labels, q) || q == n
    ensures Lookup(s.tables[n := top], q, v) ==
      if q != n then Lookup(s.tables, q, v)
      else if Slot(v, 4) < 256 then None else Lookup(s.tables, kernel, v)
  {
    var r := if q == n then kernel else q;
    assert EntryOk(s.tables, s.labels, r, Slot(v, 4));
    if Descend(s.tables, r, Slot(v, 4)).Some? {
      var dir := s.tables[r][Slot(v, 4)].frame;
      assert EntryOk(s.tables, s.labels, dir, Slot(v, 3));
      if Descend(s.tables, dir, Slot(v, 3)).Some? {
        var pd := s.tables[dir][Slot(v, 3)].frame;
        assert EntryOk(s.tables, s.labels, pd, Slot(v, 2));
      }
    }
  }

  lemma NewSpaceOldView(s: Vm, kernel: nat, n: nat, top: Table, q: nat)
    requires WellFormed(s) && IsRoot(s.labels, kernel) && n !in s.tables && CopiesUpper(top, s.tables[kernel])
    requires IsRoot(s.labels, q)
    ensures View(s.tables[n := top], q) == View(s.tables, q)
  {
    forall i: nat | i < VPN_COUNT
      ensures LookupPage(s.tables[n := top], q, i) == LookupPage(s.tables, q, i)
    {
      NewSpaceLookup(s, kernel, n, top, q, i * 0x1000);
    }
  }

  lemma NewSpaceView(s: Vm, kernel: nat, n: nat, top: Table)
    requires WellFormed(s) && IsRoot(s.labels, kernel) && n !in s.tables && CopiesUpper(top, s.tables[kernel])
    ensures View(s.tables[n := top], n) == UpperHalf(View(s.tables, kernel))
  {
    var t' := s.tables[n := top];
    var a, b := View(t', n), UpperHalf(View(s.tables, kernel));
    forall i: nat ensures (i in a <==> i in b) && (i in a ==> a[i] == b[i]) {
      if i < VPN_COUNT {
        NewSpacePage(s, kernel, n, top, i);
      }
    }
  }

  lemma NewSpacePage(s: Vm, kernel: nat, n: nat, top: Table, i: nat)
    requires WellFormed(s) && IsRoot(s.labels, kernel) && n !in s.tables && CopiesUpper(top, s.tables[kernel])
    requires i < VPN_COUNT
    ensures LookupPage(s.tables[n := top], n, i) == if i < HALF then None else LookupPage(s.tables, kernel, i)
  {
    HalfOfSlot(i * 0x1000);
    assert Vpn(i * 0x1000) == i;
    NewSpaceLookup(s, kernel, n, top, n, i * 0x1000);
  }

  lemma NewSpacePasses(s: Vm, n: nat, top: Table, g: nat, v: nat, level: nat, user: bool)
    requires WellFormed(s) && n !in s.tables && g in s.tables
    requires 1 <= level <= 4 && Level(s.labels[g]) == level && Passes(s.tables, g, v, level, user)
    ensures Passes(s.tables[n := top], g, v, level, user)
    decreases level
  {
    if level > 1 && Present(s.tables[g][Slot(v, level)]) {
      assert EntryOk(s.tables, s.labels, g, Slot(v, level));
      NewSpacePasses(s, n, top, s.tables[g][Slot(v, level)].frame, v, level - 1, user);
    }
  }

  lemma NewSpaceCreates(s: Vm, kernel: nat, n: nat, top: Table)
    requires WellFormed(s) && IsRoot(s.labels, kernel) && n !in s.tables && CopiesUpper(top, s.tables[kernel])
    ensures Creates(s, Vm(s.tables[n := top], s.labels[n := Root]), kernel, n)
  {
    var s' := Vm(s.tables[n := top], s.labels[n := Root]);
    NewSpaceTree(s, kernel, n, top);
    NewSpaceView(s, kernel, n, top);
    forall q: nat
      ensures SameView(s, s', q)
    {
      if IsRoot(s.labels, q) {
        NewSpaceOldView(s, kernel, n, top, q);
      }
    }
    forall q: nat, v: nat
      ensures SpaceWalkable(s, s', q, v)
    {
      if IsRoot(s.labels, q) && Walkable(s.tables, q, v, 4) {
        NewSpacePasses(s, n, top, q, v, 4, false);
      }
      if IsRoot(s.labels, q) && Passes(s.tables, q, v, 4, true) {
        NewSpacePasses(s, n, top, q, v, 4, true);
      }
    }
  }
}
