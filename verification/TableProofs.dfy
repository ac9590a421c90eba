/** What inserting a table and writing a leaf entry do to the tree and to every translation. */
module TableProofs {
  import opened Outcomes
  import opened PageTables

  /** A fresh zeroed table `n`, linked from an absent entry. */
  function AddTable(t: Tables, f: nat, slot: nat, n: nat): Tables
    requires f in t && slot < 512 && n !in t
  {
    t[n := EmptyTable()][f := t[f][slot := Pte(n, TABLE_FLAGS)]]
  }

  function SetEntry(t: Tables, f: nat, slot: nat, e: Pte): Tables
    requires f in t && slot < 512
  {
    t[f := t[f][slot := e]]
  }

  /** Writing an entry into a map keyed by page number: an absent entry erases. */
  function Put(view: map<nat, Pte>, n: nat, e: Pte): map<nat, Pte> {
    if Present(e) then view[n := e] else view - {n}
  }

  /** The tables on a complete walk carry the labels of its path. */
  lemma WalkLabels(t: Tables, lab: Labels, root: nat, v: nat) returns (dir: nat, pd: nat)
    requires Tree(t, lab) && IsRoot(lab, root) && Leaf(t, root, v).Some?
    ensures Descend(t, root, Slot(v, 4)) == Some(dir) && dir in lab
    ensures Descend(t, dir, Slot(v, 3)) == Some(pd) && pd in lab
    ensures Descend(t, pd, Slot(v, 2)) == Leaf(t, root, v) && Leaf(t, root, v).value in lab
    ensures lab[dir] == ChildLabel(root, Root, Slot(v, 4))
    ensures lab[pd] == Inner(2, dir, Slot(v, 3))
    ensures lab[Leaf(t, root, v).value] == Inner(1, pd, Slot(v, 2))
  {
    assert EntryOk(t, lab, root, Slot(v, 4));
    dir := t[root][Slot(v, 4)].frame;
    assert EntryOk(t, lab, dir, Slot(v, 3));
    pd := t[dir][Slot(v, 3)].frame;
    assert EntryOk(t, lab, pd, Slot(v, 2));
  }

  /** Two walks that end in the same page table took the same slots, from the same space or
      through a shared upper-half directory. */
  lemma SameLeaf(t: Tables, lab: Labels, r: nat, v: nat, q: nat, w: nat)
    requires Tree(t, lab) && IsRoot(lab, r) && IsRoot(lab, q)
    requires Leaf(t, r, v).Some? && Leaf(t, r, v) == Leaf(t, q, w)
    ensures Slot(v, 4) == Slot(w, 4) && Slot(v, 3) == Slot(w, 3) && Slot(v, 2) == Slot(w, 2)
    ensures Descend(t, r, Slot(v, 4)) == Descend(t, q, Slot(v, 4))
    ensures Slot(v, 4) >= 256 || r == q
  {
    var d1, p1 := WalkLabels(t, lab, r, v);
    var d2, p2 := WalkLabels(t, lab, q, w);
  }

  // ----- inserting a table -----

  lemma AddTableTree(t: Tables, lab: Labels, f: nat, slot: nat, n: nat)
    requires Tree(t, lab) && f in t && Level(lab[f]) > 1 && slot < 512 && n !in t
    requires !Present(t[f][slot])
    ensures Tree(AddTable(t, f, slot, n), lab[n := ChildLabel(f, lab[f], slot)])
  {
    var t', lab' := AddTable(t, f, slot, n), lab[n := ChildLabel(f, lab[f], slot)];
    forall g, s | g in t' && 0 <= s < 512
      ensures EntryOk(t', lab', g, s)
    {
      if g != n && !(g == f && s == slot) {
        assert EntryOk(t, lab, g, s);
      }
    }
  }

  lemma AddTableDescend(t: Tables, f: nat, slot: nat, n: nat, g: nat, s: nat)
    requires f in t && slot < 512 && n !in t && s < 512
    ensures Descend(AddTable(t, f, slot, n), g, s) ==
      if g == f && s == slot then Some(n) else if g == n then None else Descend(t, g, s)
  {}

  /** A new empty table changes no translation of any space. */
  lemma AddTableLookup(t: Tables, lab: Labels, f: nat, slot: nat, n: nat, r: nat, v: nat)
    requires Tree(t, lab) && f in t && Level(lab[f]) > 1 && slot < 512 && n !in t
    requires !Present(t[f][slot]) && IsRoot(lab, r)
    ensures Lookup(AddTable(t, f, slot, n), r, v) == Lookup(t, r, v)
  {
    var t' := AddTable(t, f, slot, n);
    AddTableDescend(t, f, slot, n, r, Slot(v, 4));
    assert EntryOk(t, lab, r, Slot(v, 4));
    if Descend(t, r, Slot(v, 4)).Some? {
      var dir := t[r][Slot(v, 4)].frame;
      AddTableDescend(t, f, slot, n, dir, Slot(v, 3));
      assert EntryOk(t, lab, dir, Slot(v, 3));
      if Descend(t, dir, Slot(v, 3)).Some? {
        var pd := t[dir][Slot(v, 3)].frame;
        AddTableDescend(t, f, slot, n, pd, Slot(v, 2));
        assert EntryOk(t, lab, pd, Slot(v, 2));
      } else {
        AddTableDescend(t, f, slot, n, n, Slot(v, 2));
      }
    } else {
      AddTableDescend(t, f, slot, n, n, Slot(v, 3));
    }
  }

  // ----- writing a leaf -----

  lemma SetLeafTree(t: Tables, lab: Labels, pt: nat, slot: nat, e: Pte)
    requires Tree(t, lab) && pt in t && Level(lab[pt]) == 1 && slot < 512
    ensures Tree(SetEntry(t, pt, slot, e), lab)
  {
    var t' := SetEntry(t, pt, slot, e);
    forall g, s | g in t' && 0 <= s < 512
      ensures EntryOk(t', lab, g, s)
    {
      assert EntryOk(t, lab, g, s);
    }
  }

  /** A leaf write leaves every walk as it was. */
  lemma SetLeafWalk(t: Tables, lab: Labels, pt: nat, slot: nat, e: Pte, q: nat, w: nat)
    requires Tree(t, lab) && pt in t && Level(lab[pt]) == 1 && slot < 512 && IsRoot(lab, q)
    ensures Descend(SetEntry(t, pt, slot, e), q, Slot(w, 4)) == Descend(t, q, Slot(w, 4))
    ensures Leaf(SetEntry(t, pt, slot, e), q, w) == Leaf(t, q, w)
  {
    assert EntryOk(t, lab, q, Slot(w, 4));
    if Descend(t, q, Slot(w, 4)).Some? {
      var dir := t[q][Slot(w, 4)].frame;
      assert EntryOk(t, lab, dir, Slot(w, 3));
    }
  }

  lemma SetLeafPasses(t: Tables, lab: Labels, pt: nat, slot: nat, e: Pte, g: nat, v: nat, level: nat, user: bool)
    requires Tree(t, lab) && pt in t && Level(lab[pt]) == 1 && slot < 512
    requires 1 <= level <= 4 && g in t && Level(lab[g]) == level && Passes(t, g, v, level, user)
    ensures Passes(SetEntry(t, pt, slot, e), g, v, level, user)
    decreases level
  {
    if level > 1 && Present(t[g][Slot(v, level)]) {
      assert EntryOk(t, lab, g, Slot(v, level));
      SetLeafPasses(t, lab, pt, slot, e, t[g][Slot(v, level)].frame, v, level - 1, user);
    }
  }

  lemma SetLeafLookup(t: Tables, lab: Labels, root: nat, v: nat, e: Pte, q: nat, w: nat)
    requires Tree(t, lab) && IsRoot(lab, root) && IsRoot(lab, q) && Leaf(t, root, v).Some?
    requires Leaf(t, root, v).value in t
    ensures Lookup(SetEntry(t, Leaf(t, root, v).value, Slot(v, 1), e), q, w) ==
      if Vpn(w) == Vpn(v) && Descend(t, q, Slot(v, 4)) == Descend(t, root, Slot(v, 4))
      then (if Present(e) then Some(e) else None)
      else Lookup(t, q, w)
  {
    var dir, pd := WalkLabels(t, lab, root, v);
    var pt := Leaf(t, root, v).value;
    SetLeafWalk(t, lab, pt, Slot(v, 1), e, q, w);
    SameSlots(v, w);
    if Leaf(t, q, w) == Some(pt) {
      SameLeaf(t, lab, root, v, q, w);
    }
  }

  /** Writing the leaf entry of `v` in space `root` is one map update in every space that reaches
      it through the same directory, and nothing anywhere else. */
  lemma LeafWriteView(t: Tables, lab: Labels, root: nat, v: nat, e: Pte, q: nat)
    requires Tree(t, lab) && IsRoot(lab, root) && IsRoot(lab, q) && Leaf(t, root, v).Some?
    requires Leaf(t, root, v).value in t
    ensures View(SetEntry(t, Leaf(t, root, v).value, Slot(v, 1), e), q) ==
      if Descend(t, q, Slot(v, 4)) == Descend(t, root, Slot(v, 4))
      then Put(View(t, q), Vpn(v), e) else View(t, q)
  {
    var t' := SetEntry(t, Leaf(t, root, v).value, Slot(v, 1), e);
    var same := Descend(t, q, Slot(v, 4)) == Descend(t, root, Slot(v, 4));
    forall n: nat ensures PagePut(t, t', q, Vpn(v), e, same, n) {
      if n < VPN_COUNT {
        assert Vpn(n * 0x1000) == n;
        SetLeafLookup(t, lab, root, v, e, q, n * 0x1000);
      }
    }
    ViewPut(t, t', q, Vpn(v), e, same);
  }

  /** Page `n` translates as before, or to the new entry when it is page `n0` and was written. */
  ghost predicate PagePut(t: Tables, t': Tables, q: nat, n0: nat, e: Pte, written: bool, n: nat) {
    n < VPN_COUNT ==>
      LookupPage(t', q, n) ==
        if n == n0 && written then (if Present(e) then Some(e) else None) else LookupPage(t, q, n)
  }

  lemma InView(t: Tables, q: nat, n: nat)
    ensures n in View(t, q) <==> n < VPN_COUNT && LookupPage(t, q, n).Some?
    ensures n in View(t, q) ==> View(t, q)[n] == LookupPage(t, q, n).value
  {}

  lemma ViewPut(t: Tables, t': Tables, q: nat, n0: nat, e: Pte, written: bool)
    requires n0 < VPN_COUNT && forall n: nat :: PagePut(t, t', q, n0, e, written, n)
    ensures View(t', q) == if written then Put(View(t, q), n0, e) else View(t, q)
  {
    var a, b := View(t', q), if written then Put(View(t, q), n0, e) else View(t, q);
    forall n: nat ensures (n in a <==> n in b) && (n in a ==> a[n] == b[n]) {
      assert PagePut(t, t', q, n0, e, written, n);
      InView(t, q, n);
      InView(t', q, n);
    }
  }

  /** Lower-half directories are private: two spaces never meet below one. */
  lemma LowHalfPrivate(t: Tables, lab: Labels, r: nat, q: nat, slot: nat)
    requires Tree(t, lab) && IsRoot(lab, r) && IsRoot(lab, q) && slot < 256
    requires Descend(t, r, slot).Some? && Descend(t, r, slot) == Descend(t, q, slot)
    ensures r == q
  {
    assert EntryOk(t, lab, r, slot);
    assert EntryOk(t, lab, q, slot);
  }
}
