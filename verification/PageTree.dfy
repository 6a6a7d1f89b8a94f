/** The tree of page tables in memory, and how the hardware walk reads it.

    `Tree` maps an index path to a frame: a path of up to 3 indices leads to a page table, a
    path of 4 to the frame behind a page whose entry carries ALLOCATED. Being a map that is
    also injective, it puts every frame in at most one place. */
module PageTree {
  import opened Bits
  import opened PageTables

  type Tree = map<Path, nat>

  function Parent(q: Path): Path
    requires q != []
  {
    q[..|q| - 1]
  }

  function Last(q: Path): Index
    requires q != []
  {
    q[|q| - 1]
  }

  function Child(q: Path, i: Index): (c: Path)
    ensures |c| == |q| + 1 && Parent(c) == q && Last(c) == i
    ensures q == [] ==> c[0] == i
    ensures q != [] ==> c[0] == q[0]
  {
    q + [i]
  }

  lemma ChildOfParent(q: Path)
    requires q != []
    ensures Child(Parent(q), Last(q)) == q
  {}

  /** The entry that leads to `q`. */
  function EntryTo(mem: Memory, tree: Tree, q: Path): nat
    requires q != [] && Parent(q) in tree && tree[Parent(q)] in mem
  {
    mem[tree[Parent(q)]][Last(q)]
  }

  ghost predicate LinkAt(mem: Memory, tree: Tree, q: Path)
    requires q in tree && q != []
  {
    && Parent(q) in tree
    && tree[Parent(q)] in mem
    && var e := EntryTo(mem, tree, q);
       && e / 4096 == tree[q]
       && if |q| <= 3 then Present(e) && !IsLarge(e) else Allocated(e)
  }

  /** Slot 511 of the PML4 points at the PML4 itself. */
  ghost predicate RecursiveSlot(mem: Memory, root: nat) {
    root in mem && Present(mem[root][511]) && !IsLarge(mem[root][511]) && mem[root][511] / 4096 == root
  }

  ghost predicate Ram(mem: Memory) {
    forall f :: f in mem ==> f < FRAMES
  }

  /** Every place of the tree is reached by an entry in memory. */
  ghost predicate Linked(mem: Memory, root: nat, tree: Tree) {
    && Ram(mem)
    && RecursiveSlot(mem, root)
    && [] in tree && tree[[]] == root
    && [511] !in tree
    && (forall q :: q in tree ==> |q| <= 4 && tree[q] in mem)
    && (forall q {:trigger LinkAt(mem, tree, q)} :: q in tree && q != [] ==> LinkAt(mem, tree, q))
  }

  /** An entry that holds a frame: any present entry of an upper table, any ALLOCATED one of a PML1. */
  predicate Owns(e: nat, level: nat) {
    if level <= 2 then Present(e) else Allocated(e)
  }

  /** Every entry that holds a frame is in the tree. */
  ghost predicate Complete(mem: Memory, tree: Tree) {
    forall q, i: Index {:trigger Child(q, i)} ::
      q in tree && |q| <= 3 && (q == [] ==> i != 511) && tree[q] in mem && Owns(mem[tree[q]][i], |q|)
      ==> Child(q, i) in tree
  }

  ghost predicate OnePlaceEach(tree: Tree) {
    forall p, q :: p in tree && q in tree && tree[p] == tree[q] ==> p == q
  }

  ghost predicate TreeOk(mem: Memory, root: nat, tree: Tree) {
    Linked(mem, root, tree) && Complete(mem, tree) && OnePlaceEach(tree)
  }

  // ---------------------------------------------------------------------
  // The walk follows the tree
  // ---------------------------------------------------------------------

  lemma {:induction false} PrefixIn(mem: Memory, root: nat, tree: Tree, q: Path, k: nat)
    requires Linked(mem, root, tree) && q in tree && k <= |q|
    ensures q[..k] in tree
    decreases |q|
  {
    if k == |q| {
      assert q[..k] == q;
    } else {
      assert LinkAt(mem, tree, q);
      PrefixIn(mem, root, tree, Parent(q), k);
      assert Parent(q)[..k] == q[..k];
    }
  }

  /** From a table of the tree, the walk follows the tree as far as the tree goes. */
  lemma {:induction false} WalkDown(mem: Memory, root: nat, tree: Tree, p: Path, s: Path)
    requires Linked(mem, root, tree) && p in tree && s != [] && |p| + |s| <= 4
    requires p + Parent(s) in tree
    ensures Walk(mem, tree[p], s) == LeafOf(mem[tree[p + Parent(s)]][Last(s)])
    decreases |s|
  {
    if |s| == 1 {
      assert p + Parent(s) == p;
    } else {
      var p' := Child(p, s[0]);
      PrefixIn(mem, root, tree, p + Parent(s), |p| + 1);
      assert (p + Parent(s))[..|p| + 1] == p';
      assert LinkAt(mem, tree, p');
      assert p' + Parent(s[1..]) == p + Parent(s);
      WalkDown(mem, root, tree, p', s[1..]);
    }
  }

  /** Where the tree has no table the walk faults. */
  lemma {:induction false} WalkOff(mem: Memory, root: nat, tree: Tree, p: Path, s: Path)
    requires TreeOk(mem, root, tree) && p in tree && |s| >= 2 && |p| + |s| <= 4
    requires p + Parent(s) !in tree && (p + s)[0] != 511
    ensures Walk(mem, tree[p], s) == Fault
    decreases |s|
  {
    var p' := Child(p, s[0]);
    assert p + Parent(s) == if |s| == 2 then p' else p' + Parent(s[1..]);
    if p' in tree && |s| > 2 {
      assert LinkAt(mem, tree, p');
      assert p' + s[1..] == p + s;
      WalkOff(mem, root, tree, p', s[1..]);
    }
  }

  /** The walk of a page outside slot 511, read off the tree. */
  lemma WalkIs(mem: Memory, root: nat, tree: Tree, q: Path)
    requires TreeOk(mem, root, tree) && |q| == 4 && q[0] != 511
    ensures Walk(mem, root, q) == if Parent(q) in tree then LeafOf(mem[tree[Parent(q)]][Last(q)]) else Fault
  {
    assert [] + Parent(q) == Parent(q) && [] + q == q;
    if Parent(q) in tree {
      WalkDown(mem, root, tree, [], q);
    } else {
      WalkOff(mem, root, tree, [], q);
    }
  }

  lemma StandStill(mem: Memory, root: nat, s: Path)
    requires Ram(mem) && RecursiveSlot(mem, root) && 1 <= |s| <= 3
    ensures Walk(mem, root, [511] + s) == Walk(mem, root, s)
  {
    assert ([511] + s)[1..] == s;
  }

  /** Through slot 511 the walk of a table's recursive path is the plain walk of its path. */
  lemma RecursiveWalk(mem: Memory, root: nat, q: Path)
    requires Ram(mem) && RecursiveSlot(mem, root) && |q| <= 3
    ensures Walk(mem, root, RecursivePath(q)) == if q == [] then Leaf(mem[root][511]) else Walk(mem, root, q)
  {
    var s: Path := if q == [] then [511] else q;
    StandStill(mem, root, s);
    if |s| <= 2 {
      StandStill(mem, root, [511] + s);
      assert [511] + ([511] + s) == [511, 511] + s;
    }
    if |s| <= 1 {
      StandStill(mem, root, [511, 511] + s);
      assert [511] + ([511, 511] + s) == [511, 511, 511] + s;
    }
    if q == [] {
      assert [511, 511, 511] + s == RecursivePath(q);
    }
  }

  lemma RecursiveLeaf(mem: Memory, root: nat, tree: Tree, q: Path)
    requires Linked(mem, root, tree) && q in tree && |q| <= 3
    ensures var t := Walk(mem, root, RecursivePath(q)); t.Leaf? && t.entry / 4096 == tree[q]
  {
    RecursiveWalk(mem, root, q);
    if q != [] {
      assert LinkAt(mem, tree, q);
      assert [] + Parent(q) == Parent(q);
      WalkDown(mem, root, tree, [], q);
    }
  }

  lemma AddressReaches(mem: Memory, root: nat, v: nat, q: Path, f: nat)
    requires PathOf(PageOf(v)) == q && f in mem && f < FRAMES
    requires var t := Walk(mem, root, q); t.Leaf? && t.entry / 4096 == f
    ensures Accessible(mem, root, v) && FrameAt(mem, root, v) == f
    ensures Load(mem, root, v) == mem[f][v % 4096 / 8]
  {}

  /** The address a PML macro builds reaches exactly the table a direct walk would, and that
      table's own word `i`. */
  lemma MacroReaches(mem: Memory, root: nat, tree: Tree, q: Path, i: Index)
    requires Linked(mem, root, tree) && q in tree && |q| <= 3
    ensures var v := EntryAt(TableAddress(q), i);
            && v % 4096 / 8 == i
            && Accessible(mem, root, v)
            && FrameAt(mem, root, v) == tree[q]
            && Load(mem, root, v) == mem[tree[q]][i]
  {
    MacroAddress(q, i);
    RecursiveLeaf(mem, root, tree, q);
    AddressReaches(mem, root, EntryAt(TableAddress(q), i), RecursivePath(q), tree[q]);
  }

  /** Where a table is missing, its macro address faults. */
  lemma MacroFaults(mem: Memory, root: nat, tree: Tree, q: Path, i: Index)
    requires TreeOk(mem, root, tree) && q !in tree && 1 <= |q| <= 3 && q[0] != 511
    ensures !Accessible(mem, root, EntryAt(TableAddress(q), i))
  {
    MacroAddress(q, i);
    RecursiveWalk(mem, root, q);
    assert [] + Parent(q) == Parent(q) && [] + q == q;
    if Parent(q) in tree {
      ChildOfParent(q);
      WalkDown(mem, root, tree, [], q);
    } else {
      WalkOff(mem, root, tree, [], q);
    }
  }

  // ---------------------------------------------------------------------
  // Installing a table
  // ---------------------------------------------------------------------

  /** A frame that is nowhere in the tree. */
  ghost predicate Unplaced(tree: Tree, f: nat) {
    forall q :: q in tree ==> tree[q] != f
  }

  /** A table can be installed as child `i` of the table at `q`, in the unused frame `f`. */
  ghost predicate CanInstall(mem: Memory, root: nat, tree: Tree, q: Path, i: Index, f: nat) {
    && TreeOk(mem, root, tree) && q in tree && |q| <= 2
    && Child(q, i) !in tree && (q == [] ==> i != 511) && f in mem && Unplaced(tree, f)
  }

  /** Memory once the entry for the new table is written. */
  function Hung(mem: Memory, tree: Tree, q: Path, i: Index, f: nat): Memory
    requires q in tree && tree[q] in mem
  {
    WriteWord(mem, tree[q], i, TableEntry(f))
  }

  /** Writing one word leaves the link to `r` alone unless it is that word. */
  lemma LinkKept(mem: Memory, root: nat, tree: Tree, q: Path, i: Index, e: nat, r: Path)
    requires Linked(mem, root, tree) && OnePlaceEach(tree) && q in tree
    requires r in tree && r != [] && r != Child(q, i)
    ensures LinkAt(WriteWord(mem, tree[q], i, e), tree, r)
  {
    assert LinkAt(mem, tree, r);
    ChildOfParent(r);
  }

  lemma SlotKept(mem: Memory, root: nat, tree: Tree, q: Path, i: Index, e: nat)
    requires Linked(mem, root, tree) && OnePlaceEach(tree) && q in tree && (q == [] ==> i != 511)
    ensures RecursiveSlot(WriteWord(mem, tree[q], i, e), root)
  {
    assert tree[q] == root ==> q == [];
  }

  /** After the entry is written and before the table is cleared, the tree is linked: the
      new table already appears at its recursive address, holding whatever the frame held. */
  lemma InstallLinks(mem: Memory, root: nat, tree: Tree, q: Path, i: Index, f: nat)
    requires CanInstall(mem, root, tree, q, i, f)
    ensures Linked(Hung(mem, tree, q, i, f), root, tree[Child(q, i) := f])
  {
    var mem', tree' := Hung(mem, tree, q, i, f), tree[Child(q, i) := f];
    TableEntryBits(f);
    SlotKept(mem, root, tree, q, i, TableEntry(f));
    forall r | r in tree' && r != [] ensures LinkAt(mem', tree', r) {
      if r != Child(q, i) {
        LinkKept(mem, root, tree, q, i, TableEntry(f), r);
      }
    }
  }

  /** The word at child `k` of `r`, once the new table is hung and cleared. */
  lemma InstalledWord(mem: Memory, root: nat, tree: Tree, q: Path, i: Index, f: nat, r: Path, k: Index)
    requires CanInstall(mem, root, tree, q, i, f) && r in tree && Child(r, k) != Child(q, i)
    ensures Hung(mem, tree, q, i, f)[f := ZeroTable()][tree[r]][k] == mem[tree[r]][k]
  {
    assert r == q ==> k != i;
  }

  lemma ClearedLinks(mem: Memory, root: nat, tree: Tree, q: Path, i: Index, f: nat)
    requires CanInstall(mem, root, tree, q, i, f)
    ensures Linked(Hung(mem, tree, q, i, f)[f := ZeroTable()], root, tree[Child(q, i) := f])
  {
    var c := Child(q, i);
    var mem1, tree' := Hung(mem, tree, q, i, f), tree[c := f];
    InstallLinks(mem, root, tree, q, i, f);
    forall r | r in tree' && r != [] ensures LinkAt(mem1[f := ZeroTable()], tree', r) {
      assert LinkAt(mem1, tree', r);
      if r != c {
        assert LinkAt(mem, tree, r);
      }
    }
  }

  lemma InstalledOwns(mem: Memory, root: nat, tree: Tree, q: Path, i: Index, f: nat, r: Path, k: Index)
    requires CanInstall(mem, root, tree, q, i, f) && r in tree && |r| <= 3 && (r == [] ==> k != 511)
    requires Owns(Hung(mem, tree, q, i, f)[f := ZeroTable()][tree[r]][k], |r|)
    ensures Child(r, k) in tree[Child(q, i) := f]
  {
    if Child(r, k) != Child(q, i) {
      InstalledWord(mem, root, tree, q, i, f, r, k);
    }
  }

  /** Clearing the new table completes the tree. */
  lemma InstallCompletes(mem: Memory, root: nat, tree: Tree, q: Path, i: Index, f: nat)
    requires CanInstall(mem, root, tree, q, i, f)
    ensures TreeOk(Hung(mem, tree, q, i, f)[f := ZeroTable()], root, tree[Child(q, i) := f])
  {
    var c := Child(q, i);
    var mem', tree' := Hung(mem, tree, q, i, f)[f := ZeroTable()], tree[c := f];
    ClearedLinks(mem, root, tree, q, i, f);
    forall r, k: Index | r in tree' && |r| <= 3 && (r == [] ==> k != 511) && tree'[r] in mem'
                         && Owns(mem'[tree'[r]][k], |r|)
      ensures Child(r, k) in tree'
    {
      if r != c {
        InstalledOwns(mem, root, tree, q, i, f, r, k);
      }
    }
    assert OnePlaceEach(tree');
  }

  /** Adding a cleared table changes the translation of no page outside slot 511. */
  lemma InstallKeepsWalks(mem: Memory, root: nat, tree: Tree, q: Path, i: Index, f: nat, s: Path)
    requires CanInstall(mem, root, tree, q, i, f) && |s| == 4 && s[0] != 511
    ensures Walk(Hung(mem, tree, q, i, f)[f := ZeroTable()], root, s) == Walk(mem, root, s)
  {
    var mem', tree' := Hung(mem, tree, q, i, f)[f := ZeroTable()], tree[Child(q, i) := f];
    InstallCompletes(mem, root, tree, q, i, f);
    WalkIs(mem, root, tree, s);
    WalkIs(mem', root, tree', s);
    if Parent(s) in tree {
      InstalledWord(mem, root, tree, q, i, f, Parent(s), Last(s));
    }
  }

  // ---------------------------------------------------------------------
  // Writing a PML1 entry
  // ---------------------------------------------------------------------

  /** The tree after entry `i` of the PML1 at `q` becomes `e`. */
  function Rehung(tree: Tree, q: Path, i: Index, e: nat): Tree {
    if Allocated(e) then tree[Child(q, i) := e / 4096] else tree - {Child(q, i)}
  }

  ghost predicate CanWriteLeaf(mem: Memory, root: nat, tree: Tree, q: Path, e: nat) {
    && TreeOk(mem, root, tree) && q in tree && |q| == 3
    && (Allocated(e) ==> e / 4096 in mem && Unplaced(tree, e / 4096))
  }

  lemma LeafWriteLinks(mem: Memory, root: nat, tree: Tree, q: Path, i: Index, e: nat)
    requires CanWriteLeaf(mem, root, tree, q, e)
    ensures Linked(WriteWord(mem, tree[q], i, e), root, Rehung(tree, q, i, e))
  {
    var mem', tree' := WriteWord(mem, tree[q], i, e), Rehung(tree, q, i, e);
    SlotKept(mem, root, tree, q, i, e);
    forall r | r in tree' && r != [] ensures LinkAt(mem', tree', r) {
      if r != Child(q, i) {
        LinkKept(mem, root, tree, q, i, e, r);
        assert |Parent(r)| <= 3;
      }
    }
  }

  lemma LeafWriteOwns(mem: Memory, root: nat, tree: Tree, q: Path, i: Index, e: nat, r: Path, k: Index)
    requires CanWriteLeaf(mem, root, tree, q, e)
    requires r in tree && |r| <= 3 && (r == [] ==> k != 511)
    requires Owns(WriteWord(mem, tree[q], i, e)[tree[r]][k], |r|)
    ensures Child(r, k) in Rehung(tree, q, i, e)
  {
    if r == q && k == i {
    } else {
      assert Child(r, k) != Child(q, i);
    }
  }

  lemma LeafWrite(mem: Memory, root: nat, tree: Tree, q: Path, i: Index, e: nat)
    requires CanWriteLeaf(mem, root, tree, q, e)
    ensures TreeOk(WriteWord(mem, tree[q], i, e), root, Rehung(tree, q, i, e))
  {
    var mem', tree' := WriteWord(mem, tree[q], i, e), Rehung(tree, q, i, e);
    LeafWriteLinks(mem, root, tree, q, i, e);
    forall r, k: Index | r in tree' && |r| <= 3 && (r == [] ==> k != 511) && tree'[r] in mem'
                         && Owns(mem'[tree'[r]][k], |r|)
      ensures Child(r, k) in tree'
    {
      assert r != Child(q, i);
      LeafWriteOwns(mem, root, tree, q, i, e, r, k);
    }
    assert OnePlaceEach(tree');
  }

  /** Writing entry `i` of the PML1 at `q` changes the translation of that page and no other. */
  lemma LeafWriteWalks(mem: Memory, root: nat, tree: Tree, q: Path, i: Index, e: nat, s: Path)
    requires CanWriteLeaf(mem, root, tree, q, e) && |s| == 4 && s[0] != 511
    ensures Walk(WriteWord(mem, tree[q], i, e), root, s)
            == if s == Child(q, i) then LeafOf(e) else Walk(mem, root, s)
  {
    var mem', tree' := WriteWord(mem, tree[q], i, e), Rehung(tree, q, i, e);
    LeafWrite(mem, root, tree, q, i, e);
    WalkIs(mem, root, tree, s);
    WalkIs(mem', root, tree', s);
    ChildOfParent(s);
  }

  /** Writing into a frame behind a page, as the kernel's data does, leaves the tree alone. */
  lemma DataWrite(mem: Memory, root: nat, tree: Tree, f: nat, i: Index, v: nat)
    requires TreeOk(mem, root, tree) && f in mem
    requires forall q :: q in tree && |q| <= 3 ==> tree[q] != f
    ensures TreeOk(WriteWord(mem, f, i, v), root, tree)
  {
    var mem' := WriteWord(mem, f, i, v);
    forall r | r in tree && r != [] ensures LinkAt(mem', tree, r) {
      assert LinkAt(mem, tree, r);
    }
  }

  // ---------------------------------------------------------------------
  // Frames in the tree
  // ---------------------------------------------------------------------

  lemma ValuesWith(tree: Tree, c: Path, f: nat)
    requires c !in tree
    ensures tree[c := f].Values == tree.Values + {f}
  {
    var t := tree[c := f];
    assert c in t;
    forall v | v in tree.Values ensures v in t.Values {
      var q :| q in tree && tree[q] == v;
      assert q in t && t[q] == v;
    }
  }

  lemma ValuesWithout(tree: Tree, c: Path)
    requires OnePlaceEach(tree) && c in tree
    ensures (tree - {c}).Values == tree.Values - {tree[c]}
  {
    var t := tree - {c};
    forall v | v in tree.Values && v != tree[c] ensures v in t.Values {
      var q :| q in tree && tree[q] == v;
      assert q in t && t[q] == v;
    }
  }

  /** How many of the three upper tables on the way to page path `s` do not exist yet. */
  function Missing(tree: Tree, s: Path): nat
    requires |s| == 4
  {
    (if s[..1] in tree then 0 else 1) + (if s[..2] in tree then 0 else 1) + (if s[..3] in tree then 0 else 1)
  }
}
