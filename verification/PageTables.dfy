/** Page-table entries, the hardware's 4-level walk (section 5.3 of the AMD64 Architecture
    Programmer's Manual, Volume 2) and the recursive mapping of
    kernel/arch/x86_64/include/mykonos/pageTables.h and
    kernel/arch/x86_64/kernel/paging/paging.cpp. */
module PageTables {
  import opened Bits

  // ---------------------------------------------------------------------
  // Entries
  // ---------------------------------------------------------------------

  const PRESENT: nat := 1
  const WRITABLE: nat := 2
  const USER: nat := 4
  const UNCACHEABLE: nat := 16
  const ALLOCATED: nat := 2048

  predicate Present(e: nat) { e % 2 == 1 }

  predicate Allocated(e: nat) { e / 2048 % 2 == 1 }

  /** Bit 7 of a PML3 or PML2 entry: the entry maps a large page and the walk ends there. */
  predicate IsLarge(e: nat) { e / 128 % 2 == 1 }

  const FRAMES: nat := 0x100_0000_0000

  /** Bits 12 to 51. */
  function EntryFrame(e: nat): nat { e / 4096 % FRAMES }

  lemma FlagTests(e: nat)
    ensures BitAnd(e, PRESENT) != 0 <==> Present(e)
    ensures BitAnd(e, ALLOCATED) != 0 <==> Allocated(e)
  {
    TestBit(e, 0);
    TestBit(e, 11);
    assert Pow2(11) == 2048;
  }

  /** The entry `allocatePageTable` builds, with the `+` that stands for `|`. */
  function TableEntry(frame: nat): nat {
    frame * 4096 + PRESENT + WRITABLE + ALLOCATED + USER
  }

  function MapFlags(flags: nat, owned: bool, cacheable: bool): nat {
    flags + PRESENT + (if owned then ALLOCATED else 0) + (if cacheable then 0 else UNCACHEABLE)
  }

  /** The entry `mapPage` builds. */
  function MapEntry(physical: nat, flags: nat, owned: bool, cacheable: bool): nat {
    BitOr(MapFlags(flags, owned, cacheable), physical / 4096 * 4096)
  }

  /** Flags built by `+` are the flags meant, bit for bit, exactly when the caller's flags do
      not already hold a bit that is added; PRESENT + PRESENT would make WRITABLE. */
  lemma FlagsAsMeant(flags: nat, owned: bool, cacheable: bool)
    ensures var extra := 1 + (if owned then 2048 else 0) + (if cacheable then 0 else 16);
            MapFlags(flags, owned, cacheable) == BitOr(flags, extra) <==> BitAnd(flags, extra) == 0
  {
    PlusIsOr(flags, 1 + (if owned then 2048 else 0) + (if cacheable then 0 else 16));
  }

  /** Where they do: asking for PRESENT makes the page writable and not present. */
  lemma PresentTwice()
    ensures MapFlags(1, false, true) == 2 != BitOr(1, 1)
  {
    assert BitOr(1, 1) == 2 * BitOr(0, 0) + 1;
  }

  /** The entry `mapPage` writes is the frame and the flags, unmixed, exactly when they share no bit; for
      flags below the frame number, as in all the kernel's own calls, always. */
  lemma MapEntryIs(physical: nat, flags: nat, owned: bool, cacheable: bool)
    ensures var low, high := MapFlags(flags, owned, cacheable), physical / 4096 * 4096;
            && (MapEntry(physical, flags, owned, cacheable) == high + low <==> BitAnd(low, high) == 0)
            && (low < 4096 ==> BitAnd(low, high) == 0)
  {
    assert Pow2(12) == 4096;
    if MapFlags(flags, owned, cacheable) < 4096 {
      LowAndHigh(MapFlags(flags, owned, cacheable), physical / 4096, 12);
    }
    PlusIsOr(MapFlags(flags, owned, cacheable), physical / 4096 * 4096);
  }

  lemma LowBits(n: nat, low: nat)
    requires low < 4096
    ensures var e := n * 4096 + low;
            e / 4096 == n && e % 2 == low % 2 && e / 2048 % 2 == low / 2048 % 2
  {
    var e := n * 4096 + low;
    Quotient(e, 4096, n, low);
    Quotient(e, 2, n * 2048 + low / 2, low % 2);
    Quotient(e, 2048, 2 * n + low / 2048, low % 2048);
    Quotient(2 * n + low / 2048, 2, n, low / 2048);
  }

  lemma WritableEntry(physical: nat, owned: bool, cacheable: bool)
    ensures var e := MapEntry(physical, WRITABLE, owned, cacheable);
            Present(e) && (Allocated(e) <==> owned) && e / 4096 == physical / 4096
  {
    hide MapEntry;
    MapEntryIs(physical, WRITABLE, owned, cacheable);
    LowBits(physical / 4096, MapFlags(WRITABLE, owned, cacheable));
  }

  /** The twelve low bits of the entries of `allocateMemory` and `mapAddress`: bits 0 and 1, bit 11 if
      the frame is owned, bit 4 if the page is not cacheable, and no other. */
  lemma EntryFlags(physical: nat, owned: bool, cacheable: bool)
    ensures var e := MapEntry(physical, WRITABLE, owned, cacheable);
            && e % 4096 == 3 + (if owned then 2048 else 0) + (if cacheable then 0 else 16)
            && (e / 16 % 2 == 1 <==> !cacheable)
  {
    hide MapEntry;
    MapEntryIs(physical, WRITABLE, owned, cacheable);
    var low := MapFlags(WRITABLE, owned, cacheable);
    Quotient(physical / 4096 * 4096 + low, 4096, physical / 4096, low);
    Quotient(physical / 4096 * 4096 + low, 16, physical / 4096 * 256 + low / 16, low % 16);
    Quotient(physical / 4096 * 256 + low / 16, 2, physical / 4096 * 128 + low / 32, low / 16 % 2);
  }

  /** Bits 0, 1, 2 and 11. */
  lemma TableEntryBits(frame: nat)
    ensures var e := TableEntry(frame);
            Present(e) && Allocated(e) && !IsLarge(e) && e / 4096 == frame && e == frame * 4096 + 2055
  {
    LowBits(frame, 2055);
    Quotient(TableEntry(frame), 128, 32 * frame + 16, 7);
    Quotient(32 * frame + 16, 2, 16 * frame + 8, 0);
  }

  // ---------------------------------------------------------------------
  // Memory and the hardware walk
  // ---------------------------------------------------------------------

  type Index = i: nat | i < 512
  type Path = seq<Index>
  type Table = t: seq<nat> | |t| == 512 witness seq(512, _ => 0)

  function ZeroTable(): (t: Table)
    ensures forall i: Index :: t[i] == 0
  {
    seq(512, _ => 0)
  }

  /** Physical memory, frame by frame, each read as 512 words of 8 bytes. */
  type Memory = map<nat, Table>

  datatype Translation = Fault | LargePage | Leaf(entry: nat)

  function LeafOf(e: nat): Translation {
    if Present(e) then Leaf(e) else Fault
  }

  /** The walk from the table in frame `f`; |q| is the level of that table, 4 for the PML4. */
  function Walk(mem: Memory, f: nat, q: Path): Translation
    requires |q| >= 1
    decreases |q|
  {
    if f !in mem then Fault
    else
      var e := mem[f][q[0]];
      if !Present(e) then Fault
      else if |q| == 1 then Leaf(e)
      else if |q| <= 3 && IsLarge(e) then LargePage
      else Walk(mem, EntryFrame(e), q[1..])
  }

  const PAGES: nat := 0x10_0000_0000

  /** The 48 translated bits of an address, without the byte offset. */
  function PageOf(address: nat): (p: nat)
    ensures p < PAGES
  {
    address % 0x1_0000_0000_0000 / 4096
  }

  function PathOf(page: nat): (q: Path)
    ensures |q| == 4
  {
    [page / 512 / 512 / 512 % 512, page / 512 / 512 % 512, page / 512 % 512, page % 512]
  }

  function Below(high: nat, i: nat): nat {
    high * 512 + i
  }

  function PageAt(q: Path): nat
    requires |q| == 4
  {
    Below(Below(Below(q[0], q[1]), q[2]), q[3])
  }

  /** Pages below 2^36 and 4-level paths correspond one to one. */
  lemma PagePath(page: nat)
    requires page < PAGES
    ensures PageAt(PathOf(page)) == page
  {
    var a := page / 512;
    var b := a / 512;
    var c := b / 512;
    assert page == Below(a, page % 512);
    assert a == Below(b, a % 512);
    assert b == Below(c, b % 512);
    assert a < 0x800_0000;
    assert b < 0x4_0000;
    assert c < 512;
    Quotient(c, 512, 0, c);
  }

  lemma PathPage(q: Path)
    requires |q| == 4
    ensures PageAt(q) < PAGES && PathOf(PageAt(q)) == q
  {
    var p2: nat := Below(q[0], q[1]);
    var p3: nat := Below(p2, q[2]);
    Quotient(PageAt(q), 512, p3, q[3]);
    Quotient(p3, 512, p2, q[2]);
    Quotient(p2, 512, q[0], q[1]);
  }

  // ---------------------------------------------------------------------
  // The recursive mapping
  // ---------------------------------------------------------------------

  const PAGE_TABLE_POINTER: nat := 0xFFFF_FF80_0000_0000

  /** `(*PAGE_TABLE_POINTER)[a][b][c]`, an array of 512 entries of 8 bytes. */
  function TableAt(a: Index, b: Index, c: Index): nat {
    PAGE_TABLE_POINTER + Below(Below(a, b), c) * 4096
  }

  function Pml4Table(): nat { TableAt(511, 511, 511) }
  function Pml3Table(i4: Index): nat { TableAt(511, 511, i4) }
  function Pml2Table(i4: Index, i3: Index): nat { TableAt(511, i4, i3) }
  function Pml1Table(i4: Index, i3: Index, i2: Index): nat { TableAt(i4, i3, i2) }

  /** The address of entry `i` of the table at `table`. */
  function EntryAt(table: nat, i: nat): nat { table + 8 * i }

  /** The address at which the table that index path `q` leads to appears. */
  function TableAddress(q: Path): nat
    requires |q| <= 3
  {
    if |q| == 0 then Pml4Table()
    else if |q| == 1 then Pml3Table(q[0])
    else if |q| == 2 then Pml2Table(q[0], q[1])
    else Pml1Table(q[0], q[1], q[2])
  }

  /** Through slot 511 the walk spends one level standing still for each missing index. */
  function RecursivePath(q: Path): (r: Path)
    requires |q| <= 3
    ensures |r| == 4
  {
    if |q| == 3 then [511] + q
    else if |q| == 2 then [511, 511] + q
    else if |q| == 1 then [511, 511, 511] + q
    else [511, 511, 511, 511]
  }

  lemma TableAtIs(a: Index, b: Index, c: Index, i: Index)
    ensures var v := EntryAt(TableAt(a, b, c), i);
            PathOf(PageOf(v)) == [511, a, b, c] && v % 4096 / 8 == i
  {
    var n: nat := Below(Below(a, b), c);
    var v := EntryAt(TableAt(a, b, c), i);
    var w: nat := (0xF_F800_0000 + n) * 4096 + EntryAt(0, i);
    assert v == 0xFFFF * 0x1_0000_0000_0000 + w;
    Quotient(v, 0x1_0000_0000_0000, 0xFFFF, w);
    Quotient(w, 4096, 0xF_F800_0000 + n, EntryAt(0, i));
    Quotient(v, 4096, 0xFFFF * 0x10_0000_0000 + 0xF_F800_0000 + n, EntryAt(0, i));
    Quotient(EntryAt(0, i), 8, i, 0);
    assert PageAt([511, a, b, c]) == 0xF_F800_0000 + n;
    PathPage([511, a, b, c]);
  }

  /** The four macros produce addresses whose walk is the recursive path of their table. */
  lemma MacroAddress(q: Path, i: Index)
    requires |q| <= 3
    ensures var v := EntryAt(TableAddress(q), i);
            PathOf(PageOf(v)) == RecursivePath(q) && v % 4096 / 8 == i
  {
    var r := RecursivePath(q);
    TableAtIs(r[1], r[2], r[3], i);
  }

  // ---------------------------------------------------------------------
  // Loads and stores through the walk
  // ---------------------------------------------------------------------

  /** The word at `address` can be read and written without a page fault. */
  predicate Accessible(mem: Memory, root: nat, address: nat) {
    var t := Walk(mem, root, PathOf(PageOf(address)));
    t.Leaf? && EntryFrame(t.entry) in mem
  }

  function FrameAt(mem: Memory, root: nat, address: nat): nat
    requires Accessible(mem, root, address)
  {
    EntryFrame(Walk(mem, root, PathOf(PageOf(address))).entry)
  }

  function Load(mem: Memory, root: nat, address: nat): nat
    requires Accessible(mem, root, address)
  {
    mem[FrameAt(mem, root, address)][address % 4096 / 8]
  }

  function WriteWord(mem: Memory, frame: nat, i: Index, value: nat): Memory
    requires frame in mem
  {
    mem[frame := mem[frame][i := value]]
  }

  function Store(mem: Memory, root: nat, address: nat, value: nat): Memory
    requires Accessible(mem, root, address)
  {
    WriteWord(mem, FrameAt(mem, root, address), address % 4096 / 8, value)
  }

  /** `memset` of the whole page at `address` to 0. */
  function ZeroPage(mem: Memory, root: nat, address: nat): Memory
    requires Accessible(mem, root, address)
  {
    mem[FrameAt(mem, root, address) := ZeroTable()]
  }
}
