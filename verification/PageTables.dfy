/** Four-level page tables as values, src/mm/vmm.c and section 4.5 of volume 3A of the Intel
    Software Developer's Manual: how a walk reads them, what makes them a tree, and what a
    table insertion or a leaf write does to every translation of every address space. */
module PageTables {
  import opened Outcomes

  /** A 64-bit entry whose flags fit in the low twelve bits: `frame * 4096 + flags`. */
  datatype Pte = Pte(frame: nat, flags: nat)

  const ABSENT := Pte(0, 0)
  const TABLE_FLAGS: nat := 7   // present, writable, user

  predicate Present(e: Pte) { e.flags % 2 == 1 }

  predicate Huge(e: Pte) { e.flags / 128 % 2 == 1 }

  type Table = t: seq<Pte> | |t| == 512 witness seq(512, i => ABSENT)

  function EmptyTable(): (t: Table)
    ensures forall s :: 0 <= s < 512 ==> t[s] == ABSENT
  {
    seq(512, i => ABSENT)
  }

  /** The frames that hold page tables, read as 512 entries. */
  type Tables = map<nat, Table>

  /** The nine index bits of a virtual address at a level: 4 is the PML4, 1 the page table. */
  function Slot(virt: nat, level: nat): (s: nat)
    ensures s < 512
  {
    if level == 4 then virt / 0x80_0000_0000 % 512
    else if level == 3 then virt / 0x4000_0000 % 512
    else if level == 2 then virt / 0x20_0000 % 512
    else virt / 0x1000 % 512
  }

  const VPN_COUNT: nat := 0x10_0000_0000

  /** Page numbers below this one are the lower half, the user's. */
  const HALF: nat := 0x8_0000_0000

  /** Bits 12..47 of a virtual address. */
  function Vpn(virt: nat): (n: nat)
    ensures n < VPN_COUNT
  {
    virt / 0x1000 % VPN_COUNT
  }

  /** The table an entry points to; nothing for an absent or a huge entry. */
  function Descend(t: Tables, f: nat, slot: nat): Option<nat>
    requires slot < 512
  {
    if f in t && Present(t[f][slot]) && !Huge(t[f][slot]) then Some(t[f][slot].frame) else None
  }

  /** The level-1 table a walk from `root` ends in. */
  function Leaf(t: Tables, root: nat, virt: nat): Option<nat> {
    match Descend(t, root, Slot(virt, 4))
    case None => None
    case Some(dir) =>
      match Descend(t, dir, Slot(virt, 3))
      case None => None
      case Some(pd) => Descend(t, pd, Slot(virt, 2))
  }

  /** The translation of an address: its present level-1 entry. */
  function Lookup(t: Tables, root: nat, virt: nat): Option<Pte> {
    match Leaf(t, root, virt)
    case None => None
    case Some(pt) =>
      if pt in t && Present(t[pt][Slot(virt, 1)]) then Some(t[pt][Slot(virt, 1)]) else None
  }

  /** An address space as a map from page numbers to entries. */
  ghost function View(t: Tables, root: nat): map<nat, Pte> {
    map n: nat | n < VPN_COUNT && LookupPage(t, root, n).Some? :: LookupPage(t, root, n).value
  }

  function LookupPage(t: Tables, root: nat, n: nat): Option<Pte> {
    Lookup(t, root, n * 0x1000)
  }

  /** The entry gives the user the right to read and to write. */
  predicate Rights(e: Pte) {
    e.flags / 2 % 2 == 1 && e.flags / 4 % 2 == 1
  }

  /** No huge entry stands on the path a walk may follow; with `user`, none that limits the user. */
  predicate Passes(t: Tables, f: nat, virt: nat, level: nat, user: bool)
    requires 1 <= level <= 4
    decreases level
  {
    level > 1 && f in t && Present(t[f][Slot(virt, level)]) ==>
      var e := t[f][Slot(virt, level)];
      !Huge(e) && (user ==> Rights(e)) && Passes(t, e.frame, virt, level - 1, user)
  }

  predicate Walkable(t: Tables, f: nat, virt: nat, level: nat)
    requires 1 <= level <= 4
  {
    Passes(t, f, virt, level, false)
  }

  lemma {:induction false} UserPasses(t: Tables, f: nat, virt: nat, level: nat)
    requires 1 <= level <= 4 && Passes(t, f, virt, level, true)
    ensures Walkable(t, f, virt, level)
    decreases level
  {
    if level > 1 && f in t && Present(t[f][Slot(virt, level)]) {
      UserPasses(t, t[f][Slot(virt, level)].frame, virt, level - 1);
    }
  }

  // ----- the tree -----

  /** Where a table hangs. A top-level table's upper 256 slots may be shared by every space,
      so a directory below one of them is known by its slot alone; every other table has one
      parent entry. */
  datatype Label =
    | Root
    | Dir(root: nat, slot: nat)
    | SharedDir(slot: nat)
    | Inner(level: nat, parent: nat, slot: nat)

  type Labels = map<nat, Label>

  function Level(l: Label): nat {
    match l
    case Root => 4
    case Dir(_, _) => 3
    case SharedDir(_) => 3
    case Inner(level, _, _) => level
  }

  function ChildLabel(f: nat, l: Label, slot: nat): Label
    requires Level(l) > 1
  {
    if l.Root? then (if slot < 256 then Dir(f, slot) else SharedDir(slot))
    else Inner(Level(l) - 1, f, slot)
  }

  /** The entry is a leaf, is not followed, or points to a table labelled as its child. */
  predicate EntryOk(t: Tables, lab: Labels, f: nat, slot: nat)
    requires f in t && f in lab && slot < 512
  {
    Level(lab[f]) > 1 && Descend(t, f, slot).Some? ==>
      var c := t[f][slot].frame;
      c in t && c in lab && lab[c] == ChildLabel(f, lab[f], slot)
  }

  /** Labels are a function of the frame, so two different parent entries never share a child
      except through the upper half of top-level tables. */
  ghost predicate Tree(t: Tables, lab: Labels) {
    && t.Keys == lab.Keys
    && (forall f :: f in lab ==> 1 <= Level(lab[f]) <= 4)
    && (forall f, s :: f in t && 0 <= s < 512 ==> EntryOk(t, lab, f, s))
  }

  ghost predicate IsRoot(lab: Labels, r: nat) {
    r in lab && lab[r].Root?
  }

  // ----- addresses and slots -----

  lemma TopDigit(p: nat)
    ensures p % 0x10_0000_0000 == p / 0x800_0000 % 512 * 0x800_0000 + p % 0x800_0000
  {}

  lemma MiddleDigit(p: nat)
    ensures p % 0x800_0000 == p / 0x4_0000 % 512 * 0x4_0000 + p % 0x4_0000
  {}

  lemma LowDigits(p: nat)
    ensures p % 0x4_0000 == p / 0x200 % 512 * 0x200 + p % 0x200
  {}

  lemma VpnOfSlots(v: nat)
    ensures Vpn(v) == Slot(v, 4) * 0x800_0000 + Slot(v, 3) * 0x4_0000 + Slot(v, 2) * 0x200 + Slot(v, 1)
  {
    var p := v / 0x1000;
    assert v / 0x20_0000 == p / 0x200;
    assert v / 0x4000_0000 == p / 0x4_0000;
    assert v / 0x80_0000_0000 == p / 0x800_0000;
    TopDigit(p);
    MiddleDigit(p);
    LowDigits(p);
  }

  lemma HalfOfSlot(virt: nat)
    ensures Vpn(virt) < HALF <==> Slot(virt, 4) < 256
  {
    VpnOfSlots(virt);
  }

  lemma UniqueDigits(a: nat, b: nat, c: nat, d: nat, a': nat, b': nat, c': nat, d': nat)
    requires b < 512 && c < 512 && d < 512 && b' < 512 && c' < 512 && d' < 512
    requires a * 0x800_0000 + b * 0x4_0000 + c * 0x200 + d == a' * 0x800_0000 + b' * 0x4_0000 + c' * 0x200 + d'
    ensures a == a' && b == b' && c == c' && d == d'
  {}

  /** Two addresses share bits 12..47 exactly when a walk takes the same slots. */
  lemma SameSlots(v: nat, w: nat)
    ensures Vpn(v) == Vpn(w) <==>
      Slot(v, 4) == Slot(w, 4) && Slot(v, 3) == Slot(w, 3) && Slot(v, 2) == Slot(w, 2) && Slot(v, 1) == Slot(w, 1)
  {
    VpnOfSlots(v);
    VpnOfSlots(w);
    if Vpn(v) == Vpn(w) {
      UniqueDigits(Slot(v, 4), Slot(v, 3), Slot(v, 2), Slot(v, 1), Slot(w, 4), Slot(w, 3), Slot(w, 2), Slot(w, 1));
    }
  }

  lemma LookupByVpn(t: Tables, root: nat, v: nat)
    ensures Lookup(t, root, v) == Lookup(t, root, Vpn(v) * 0x1000)
    ensures Leaf(t, root, v) == Leaf(t, root, Vpn(v) * 0x1000)
  {
    assert Vpn(Vpn(v) * 0x1000) == Vpn(v);
    SameSlots(v, Vpn(v) * 0x1000);
  }
}
