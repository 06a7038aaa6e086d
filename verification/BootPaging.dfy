/** The page manager of the boot loader (uefi/paging.cpp): the walk to a page-table entry with its one-entry cache,
    mappings for the kernel, and the window of large pages onto all RAM. */
module BootPaging {
  import opened PageTables

  /** The root slot of KERNEL_VIRTUAL_BASE, and of RAM_VIRTUAL_BASE. */
  const KERNEL_SLOT := 511
  const WINDOW_SLOT := 256

  const KERNEL_VIRTUAL_BASE := 0xFFFF_FF80_0000_0000
  const RAM_VIRTUAL_BASE := 0xFFFF_8000_0000_0000

  /** PAGE_FLAG_PRESENT | PAGE_FLAG_WRITE. */
  const DIR_FLAGS := Flags(true, false, 2)

  /** The page number of an address: bits 12 to 47. */
  function Page(v: nat): nat { v / 4096 % 0x10_0000_0000 }

  /** The addresses that share a page table. */
  function AreaBase(v: nat): nat { v / 0x20_0000 * 0x20_0000 }

  ghost predicate DirEntryOk(t: Tables, n: Node, i: int)
  {
    Inner(t, n, i) && Child(n, i) in t.dirs && t.dirs[n] in t.mem && |t.mem[t.dirs[n]]| == 512 ==>
      t.mem[t.dirs[n]][i].flags == DIR_FLAGS
  }

  /** All directory entries have the same flags. */
  ghost predicate PlainDirs(t: Tables)
  {
    forall n, i {:trigger DirEntryOk(t, n, i)} :: DirEntryOk(t, n, i)
  }

  /** Frames held by others, and the other root slots, are as before. */
  ghost predicate KeepsRest(t: Tables, t': Tables, root: int)
  {
    && (forall f {:trigger t.owner[f]} :: f in t.owner && t.owner[f] == Held ==>
      f in t'.owner && t'.owner[f] == Held
      && (f in t.mem ==> f in t'.mem && t'.mem[f] == t.mem[f]))
    && root in t.mem && root in t'.mem && |t.mem[root]| == |t'.mem[root]| == 512
    && (forall i {:trigger t'.mem[root][i]} :: 0 <= i < 512 && i != KERNEL_SLOT ==> t'.mem[root][i] == t.mem[root][i])
  }

  lemma WithDirRest(t: Tables, n: Node, i: int)
    requires Framed(t) && PlainDirs(t) && t.slots == {KERNEL_SLOT} && Inner(t, n, i) && Child(n, i) !in t.dirs
    requires |t.free| > 0
    requires t.dirs[n] in t.mem && 0 <= i < |t.mem[t.dirs[n]]|
    ensures PlainDirs(WithDir(t, n, i, DIR_FLAGS)) == true
    ensures KeepsRest(t, WithDir(t, n, i, DIR_FLAGS), t.dirs[Node(1, 0)]) == true
  {
    var t', root := WithDir(t, n, i, DIR_FLAGS), t.dirs[Node(1, 0)];
    assert NodeOk(t, n) == true && NodeOk(t, Node(1, 0)) == true && FreeOk(t, |t.free| - 1) == true;
    forall m, j ensures DirEntryOk(t', m, j) == true {
      assert DirEntryOk(t, m, j) == true;
      if m in t.dirs { assert NodeOk(t, m) == true; }
      else if Inner(t', m, j) {
        assert Parent(Child(m, j)) == m;
        assert Child(m, j) in t.dirs ==> NodeOk(t, Child(m, j)) == true;
      }
    }
    assert n.level == 1 ==> n == Node(1, 0);
    forall f | f in t.owner && t.owner[f] == Held
      ensures f in t'.owner && t'.owner[f] == Held && (f in t.mem ==> f in t'.mem && t'.mem[f] == t.mem[f]) {}
  }

  lemma WithLeafRest(t: Tables, p: int, e: Entry)
    requires Framed(t) && PlainDirs(t) && HasLeaf(t, p)
    ensures PlainDirs(WithLeaf(t, p, e)) == true && KeepsRest(t, WithLeaf(t, p, e), t.dirs[Node(1, 0)]) == true
  {
    var t', x := WithLeaf(t, p, e), Node(4, p / 512);
    assert NodeOk(t, x) == true && NodeOk(t, Node(1, 0)) == true;
    forall m, j ensures DirEntryOk(t', m, j) == true {
      assert DirEntryOk(t, m, j) == true;
      if m in t.dirs { assert NodeOk(t, m) == true; }
    }
  }

  /** What a lookup may change: directories are added, all else stays. */
  ghost predicate Extends(t: Tables, t': Tables, root: int)
  {
    Grows(t, t') && SameView(t, t') && KeepsRest(t, t', root) && Frames(t') == Frames(t)
  }

  lemma KeepsTwice(t: Tables, t1: Tables, t2: Tables, root: int)
    requires KeepsRest(t, t1, root) && KeepsRest(t1, t2, root)
    ensures KeepsRest(t, t2, root) == true
  {
    forall i | 0 <= i < 512 && i != KERNEL_SLOT ensures t2.mem[root][i] == t.mem[root][i] {
      assert t1.mem[root][i] == t.mem[root][i];
    }
    forall f | f in t.owner && t.owner[f] == Held
      ensures f in t2.owner && t2.owner[f] == Held && (f in t.mem ==> f in t2.mem && t2.mem[f] == t.mem[f])
    {
      assert t1.owner[f] == Held;
    }
  }

  lemma ExtendsTwice(t: Tables, t1: Tables, t2: Tables, root: int)
    requires Extends(t, t1, root) == true && Extends(t1, t2, root) == true
    ensures Extends(t, t2, root) == true
  {
    KeepsTwice(t, t1, t2, root);
    assert forall p :: View(t2, p) == View(t1, p) == View(t, p);
  }

  /** The firmware's frames for directories are not mapped by leaf entries on their own account. */
  ghost predicate NoLeaves(t: Tables)
  {
    forall f :: f in t.owner ==> !t.owner[f].Leaf?
  }

  ghost predicate Rooted(t: Tables, root: int)
  {
    Framed(t) && NoLeaves(t) && PlainDirs(t) && t.slots == {KERNEL_SLOT} && Node(1, 0) in t.dirs
      && t.dirs[Node(1, 0)] == root
  }

  lemma ExtendsNone(t: Tables, root: int)
    requires Rooted(t, root)
    ensures Extends(t, t, root) == true
  {
    assert NodeOk(t, Node(1, 0)) == true;
  }

  /** In the kernel's slot no large page can be met on the way. */
  lemma NoLargePage(t: Tables, root: int, n: Node, i: int)
    requires Rooted(t, root) && Inner(t, n, i)
    ensures t.dirs[n] in t.mem && |t.mem[t.dirs[n]]| == 512
    ensures t.mem[t.dirs[n]][i] != EMPTY ==> !Global(t.mem[t.dirs[n]][i].flags)
  {
    assert NodeOk(t, n) == true && EntryOk(t, n, i) == true && DirEntryOk(t, n, i) == true;
  }

  /** PAGE_FLAG_GLOBAL. */
  predicate Global(flags: Flags) { flags.rest & 0x100 != 0 }

  // ---------------------------------------------------------------------------------
  // The cache
  // ---------------------------------------------------------------------------------

  /** The cached page table is the one a walk finds for the addresses the cache is used for. */
  ghost predicate CacheOk(t: Tables, dir: int, base: nat)
  {
    dir != 0 ==> base % 0x20_0000 == 0 && Node(4, Page(base) / 512) in t.dirs
                 && t.dirs[Node(4, Page(base) / 512)] == dir
  }

  /** The test of `accessToPageTableEntry`, on 64-bit words. */
  predicate Hit(base: nat, v: nat)
  {
    base <= v < (base + 0x20_0000) % 0x1_0000_0000_0000_0000
  }

  lemma TimesMonotone(a: int, b: int, d: int)
    requires a <= b && d > 0
    ensures a * d <= b * d
  {
    assert (b - a) * d >= 0;
  }

  lemma DivideUnique(x: int, d: int, q: int, r: int)
    requires d > 0 && x == q * d + r && 0 <= r < d
    ensures x / d == q && x % d == r
  {
    var p := x / d;
    assert x == d * p + x % d;
    if p < q {
      TimesMonotone(p + 1, q, d);
    } else if q < p {
      TimesMonotone(q + 1, p, d);
    }
  }

  lemma AreaFacts(v: nat)
    ensures AreaBase(v) <= v < AreaBase(v) + 0x20_0000 && AreaBase(v) % 0x20_0000 == 0
  {
    DivideUnique(AreaBase(v), 0x20_0000, v / 0x20_0000, 0);
  }

  /** The number of the 2 MB area of an address, with the bits above the page number. */
  lemma TableNumber(v: nat)
    ensures v / 0x20_0000 == v / 4096 / 0x10_0000_0000 * 0x800_0000 + Page(v) / 512
  {
    var x := v / 4096;
    var hi, lo := x / 0x10_0000_0000, x % 0x10_0000_0000;
    DivideUnique(v, 0x20_0000, x / 512, x % 512 * 4096 + v % 4096);
    DivideUnique(x, 512, hi * 0x800_0000 + lo / 512, lo % 512);
  }

  lemma SameTable(base: nat, v: nat)
    requires base % 0x20_0000 == 0 && base <= v < base + 0x20_0000
    ensures Page(v) / 512 == Page(base) / 512
  {
    DivideUnique(v, 0x20_0000, base / 0x20_0000, v - base);
    TableNumber(v);
    TableNumber(base);
    PageBound(v);
    PageBound(base);
  }

  lemma PageBound(v: nat)
    ensures 0 <= Page(v) / 512 < 0x800_0000
  {
  }

  lemma CacheSet(t: Tables, dir: int, v: nat)
    requires Tree(t) == true && Node(4, Page(v) / 512) in t.dirs && t.dirs[Node(4, Page(v) / 512)] == dir
    ensures CacheOk(t, dir, AreaBase(v)) == true && dir != 0
  {
    AreaFacts(v);
    SameTable(AreaBase(v), v);
    assert NodeOk(t, Node(4, Page(v) / 512)) == true;
  }

  lemma CacheGrows(t: Tables, t': Tables, dir: int, base: nat)
    requires CacheOk(t, dir, base) && Grows(t, t')
    ensures CacheOk(t', dir, base) == true
  {
  }

  /** PAGE_FLAG_PRESENT, PAGE_FLAG_WRITE unless read-only, PAGE_FLAG_WC if asked for, and PAGE_FLAG_GLOBAL. */
  function MapFlags(readOnly: bool, wc: bool): Flags
  {
    Flags(true, false, (if readOnly then 0 else 2) | (if wc then 0x18 else 0) | 0x100)
  }

  function PageCount(size: nat): nat { (size + 4095) / 4096 }

  /** The next n pages are in the kernel's slot. */
  predicate KernelRange(v: nat, n: nat)
  {
    v % 4096 == 0 && KERNEL_VIRTUAL_BASE <= v && v + 4096 * n <= 0x1_0000_0000_0000_0000
  }

  lemma NextPage(v: nat, n: nat, i: nat)
    requires KernelRange(v, n) && i < n
    ensures Page(v + 4096 * i) == Page(v) + i && Page(v + 4096 * i) / 0x800_0000 == KERNEL_SLOT
  {
    var x := v / 4096;
    assert (v + 4096 * i) / 4096 == x + i;
    assert 0xF_FFFF_F800_0000 <= x && x + i < 0x10_0000_0000_0000;
    assert x / 0x10_0000_0000 == 0xFFFF == (x + i) / 0x10_0000_0000;
  }

  lemma FrameOf(phys: nat, i: nat)
    ensures (phys + 4096 * i) / 4096 * 4096 == phys / 4096 * 4096 + 4096 * i
  {
  }

  /** The n pages from `page` on map the frames from `frame` on; all other pages are as before. */
  ghost predicate Mapped(t: Tables, t': Tables, page: int, n: int, frame: int, flags: Flags)
  {
    && Grows(t, t')
    && forall p {:trigger View(t', p)} :: View(t', p) == if page <= p < page + n
       then Entry(frame + 4096 * (p - page), flags) else View(t, p)
  }

  /** What one call of `mapPage` does. */
  ghost predicate OneMapped(t: Tables, t': Tables, root: int, p: int, e: Entry)
  {
    && Grows(t, t') && KeepsRest(t, t', root)
    && forall q {:trigger View(t', q)} :: View(t', q) == if q == p then e else View(t, q)
  }

  /** What i calls in a row do, and the frames they take. */
  ghost predicate SoFar(t: Tables, t': Tables, root: int, page: int, i: int, frame: int, flags: Flags)
  {
    && KeepsRest(t, t', root) && Mapped(t, t', page, i, frame, flags)
    && Walked(t, t', 1, page, page + i - 1, true) && Frames(t') == Frames(t)
  }

  lemma NextMapped(t: Tables, t1: Tables, t2: Tables, root: int, page: int, i: nat, frame: int, flags: Flags, c: int)
    requires SoFar(t, t1, root, page, i, frame, flags) == true && c == page + i
    requires OneMapped(t1, t2, root, c, Entry(frame + 4096 * i, flags)) == true
    requires Walked(t1, t2, 1, c, c, true) == true && Frames(t2) == Frames(t1)
    ensures SoFar(t, t2, root, page, i + 1, frame, flags) == true
  {
    KeepsTwice(t, t1, t2, root);
    WalkedJoin(t, t1, t2, 1, page, c - 1, c, true);
    forall p ensures View(t2, p) == if page <= p < page + (i + 1)
                                    then Entry(frame + 4096 * (p - page), flags) else View(t, p) {
      assert View(t1, p) == View(t1, p);
    }
  }

  /** The directories that are missing for n pages from an address on. */
  ghost function MissingFor(t: Tables, v: nat, n: nat): nat { Missing(t, Page(v), Page(v) + n - 1) }

  lemma StopsAt(t: Tables, t1: Tables, t2: Tables, page: nat, c: int, last: int)
    requires Walked(t, t1, 1, page, c - 1, true) == true && Frames(t1) == Frames(t) && page <= c <= last
    requires Walked(t1, t2, 1, c, c, false) == true && Frames(t2) == Frames(t1) && t2.free == []
    ensures Missing(t, page, last) > |t.free|
  {
    WalkedJoin(t, t1, t2, 1, page, c - 1, c, false);
    WalkedShort(t, t2, 1, page, c, last);
    WalkExact(t, t2, page, last, false);
  }

  // ---------------------------------------------------------------------------------
  // Translation
  // ---------------------------------------------------------------------------------

  datatype Option<T> = None | Some(value: T)

  /** PAGE_FLAG_SIZE. */
  predicate Large(flags: Flags) { flags.rest & 0x80 != 0 }

  /** The bytes an entry of a directory covers. */
  function Span(level: int): nat
  {
    if level == 1 then 0x80_0000_0000 else if level == 2 then 0x4000_0000 else if level == 3 then 0x20_0000 else 4096
  }

  /** The address translation of the processor. */
  function Translate(mem: map<int, seq<Entry>>, f: int, level: int, v: nat): Option<int>
    requires 1 <= level <= 4
    decreases 4 - level
  {
    if f !in mem || |mem[f]| != 512 then None
    else
      var e := mem[f][v / Span(level) % 512];
      if !e.flags.present then None
      else if level == 4 || (level > 1 && Large(e.flags)) then Some(e.addr + v % Span(level))
      else Translate(mem, e.addr, level + 1, v)
  }

  /** The translation of an address by its leaf entry. */
  function ByEntry(e: Entry, v: nat): Option<int> { if e.flags.present then Some(e.addr + v % 4096) else None }

  lemma IndexOf1(v: nat)
    ensures v / Span(1) % 512 == Page(v) / 0x800_0000 < 512
  {
    var x := v / 4096;
    var hi, lo := x / 0x10_0000_0000, x % 0x10_0000_0000;
    DivideUnique(v, 0x80_0000_0000, x / 0x800_0000, x % 0x800_0000 * 4096 + v % 4096);
    DivideUnique(x, 0x800_0000, hi * 512 + lo / 0x800_0000, lo % 0x800_0000);
    DivideUnique(x / 0x800_0000, 512, hi, lo / 0x800_0000);
  }

  lemma IndexOf2(v: nat)
    ensures v / Span(2) % 512 == Page(v) / 0x4_0000 % 512
  {
    var x := v / 4096;
    var hi, lo := x / 0x10_0000_0000, x % 0x10_0000_0000;
    DivideUnique(v, 0x4000_0000, x / 0x4_0000, x % 0x4_0000 * 4096 + v % 4096);
    DivideUnique(x, 0x4_0000, hi * 0x4_0000 + lo / 0x4_0000, lo % 0x4_0000);
    var y := lo / 0x4_0000;
    DivideUnique(hi * 0x4_0000 + y, 512, hi * 512 + y / 512, y % 512);
  }

  lemma IndexOf3(v: nat)
    ensures v / Span(3) % 512 == Page(v) / 512 % 512
  {
    var x := v / 4096;
    var hi, y := x / 0x10_0000_0000, Page(v) / 512;
    TableNumber(v);
    DivideUnique(hi * 0x800_0000 + y, 512, hi * 0x4_0000 + y / 512, y % 512);
  }

  lemma IndexOf4(v: nat)
    ensures v / Span(4) % 512 == Page(v) % 512
  {
    var x := v / 4096;
    var hi, lo := x / 0x10_0000_0000, x % 0x10_0000_0000;
    DivideUnique(x, 512, hi * 0x800_0000 + lo / 512, lo % 512);
  }

  lemma TranslateStep(t: Tables, root: int, level: int, n: Node, i: int, v: nat)
    requires Rooted(t, root) && 1 <= level < 4 && n.level == level && Inner(t, n, i) && i == v / Span(level) % 512
    ensures Translate(t.mem, t.dirs[n], level, v) == if Child(n, i) in t.dirs
            then Translate(t.mem, t.dirs[Child(n, i)], level + 1, v) else None
  {
    assert NodeOk(t, n) == true && EntryOk(t, n, i) == true && DirEntryOk(t, n, i) == true;
  }

  ghost predicate Indexed(p: nat, v: nat)
  {
    && p / 0x800_0000 == KERNEL_SLOT == v / Span(1) % 512 && p / 0x4_0000 % 512 == v / Span(2) % 512
    && p / 512 % 512 == v / Span(3) % 512 && p % 512 == v / Span(4) % 512
  }

  /** From the page table on, and from the directory above it on. */
  lemma TranslateTable(t: Tables, root: int, p: nat, v: nat)
    requires Rooted(t, root) && Indexed(p, v) && Node(4, p / 512) in t.dirs
    ensures Translate(t.mem, t.dirs[Node(4, p / 512)], 4, v) == ByEntry(View(t, p), v)
  {
    assert NodeOk(t, Node(4, p / 512)) == true;
  }

  lemma TranslateDirectory(t: Tables, root: int, p: nat, v: nat)
    requires Rooted(t, root) && Indexed(p, v) && Node(3, p / 0x4_0000) in t.dirs
    ensures Translate(t.mem, t.dirs[Node(3, p / 0x4_0000)], 3, v) == ByEntry(View(t, p), v)
  {
    Nested(p);
    var n3 := Node(3, p / 0x4_0000);
    assert Child(n3, p / 512 % 512) == Node(4, p / 512);
    TranslateStep(t, root, 3, n3, p / 512 % 512, v);
    if Node(4, p / 512) in t.dirs { TranslateTable(t, root, p, v); }
  }

  lemma TranslateFromTop(t: Tables, root: int, p: nat, v: nat)
    requires Rooted(t, root) && Indexed(p, v)
    ensures Translate(t.mem, root, 1, v) == ByEntry(View(t, p), v)
  {
    Nested(p);
    var n2, n3, n4 := Node(2, p / 0x800_0000), Node(3, p / 0x4_0000), Node(4, p / 512);
    TranslateStep(t, root, 1, Node(1, 0), KERNEL_SLOT, v);
    assert n4 in t.dirs ==> NodeOk(t, n4) == true;
    assert n3 in t.dirs ==> NodeOk(t, n3) == true;
    if n2 in t.dirs {
      assert Child(n2, p / 0x4_0000 % 512) == n3;
      TranslateStep(t, root, 2, n2, p / 0x4_0000 % 512, v);
      if n3 in t.dirs { TranslateDirectory(t, root, p, v); }
    }
  }

  /** In the kernel's slot the processor finds the leaf entries of the tree. */
  lemma TranslateByView(t: Tables, root: int, v: nat)
    requires Rooted(t, root) && Page(v) / 0x800_0000 == KERNEL_SLOT
    ensures Translate(t.mem, root, 1, v) == ByEntry(View(t, Page(v)), v)
  {
    IndexOf1(v);
    IndexOf2(v);
    IndexOf3(v);
    IndexOf4(v);
    TranslateFromTop(t, root, Page(v), v);
  }

  /** After `mapToKernel`, the bytes returned are those of the memory given; all other kernel addresses translate as
      before. */
  lemma MappedBytes(t: Tables, t': Tables, root: int, ret: nat, n: nat, frame: int, flags: Flags, v: nat)
    requires Rooted(t, root) && Rooted(t', root) && Mapped(t, t', Page(ret), n, frame, flags) && flags.present
    requires KernelRange(ret, n) && KERNEL_VIRTUAL_BASE <= v < 0x1_0000_0000_0000_0000
    ensures Translate(t'.mem, root, 1, v) == if ret <= v < ret + 4096 * n then Some(frame + (v - ret))
            else Translate(t.mem, root, 1, v)
  {
    KernelPage(v);
    KernelPage(ret);
    TranslateByView(t, root, v);
    TranslateByView(t', root, v);
  }

  lemma KernelPage(v: nat)
    requires KERNEL_VIRTUAL_BASE <= v
    ensures v < 0x1_0000_0000_0000_0000 ==> Page(v) == v / 4096 - 0xF_FFF0_0000_0000
                                            && Page(v) / 0x800_0000 == KERNEL_SLOT
  {
    var x := v / 4096;
    if v < 0x1_0000_0000_0000_0000 { assert x / 0x10_0000_0000 == 0xFFFF; }
  }

  // ---------------------------------------------------------------------------------
  // The window onto all RAM
  // ---------------------------------------------------------------------------------

  /** PAGE_FLAG_PRESENT | PAGE_FLAG_WRITE | PAGE_FLAG_SIZE | PAGE_FLAG_GLOBAL. */
  const LARGE_FLAGS := Flags(true, false, 0x182)

  /** A page directory of 2 MB pages for gigabyte g. */
  function LargeTable(g: nat): seq<Entry> { seq(512, i => Entry(g * 0x4000_0000 + i * 0x20_0000, LARGE_FLAGS)) }

  /** The tables of the window: per 512 GB one in `ptrs`, and per gigabyte one in `tables` unless there are 1 GB
      pages. */
  datatype Window = Window(big: bool, ptrs: seq<int>, tables: seq<int>)

  /** Gigabyte g of RAM is mapped, by one large page or by 512. */
  ghost predicate WindowAt(mem: map<int, seq<Entry>>, root: int, w: Window, g: nat)
  {
    && g / 512 < 255 && g / 512 < |w.ptrs| && root in mem && |mem[root]| == 512 && w.ptrs[g / 512] in mem
       && |mem[w.ptrs[g / 512]]| == 512
    && mem[root][WINDOW_SLOT + g / 512] == Entry(w.ptrs[g / 512], DIR_FLAGS)
    && var e := mem[w.ptrs[g / 512]][g % 512];
       if w.big then e == Entry(g * 0x4000_0000, LARGE_FLAGS)
       else
         && g < |w.tables| && e == Entry(w.tables[g], DIR_FLAGS)
         && w.tables[g] in mem && mem[w.tables[g]] == LargeTable(g)
  }

  lemma WindowIndex1(x: nat)
    requires x < 0x7F80_0000_0000
    ensures (RAM_VIRTUAL_BASE + x) / Span(1) % 512 == WINDOW_SLOT + x / 0x4000_0000 / 512
  {
    assert (RAM_VIRTUAL_BASE + x) / 0x80_0000_0000 == 0x1FF_FF00 + x / 0x80_0000_0000;
    assert x / 0x4000_0000 / 512 == x / 0x80_0000_0000;
  }

  lemma WindowIndex2(x: nat)
    requires x < 0x7F80_0000_0000
    ensures (RAM_VIRTUAL_BASE + x) / Span(2) % 512 == x / 0x4000_0000 % 512
    ensures (RAM_VIRTUAL_BASE + x) % Span(2) == x % 0x4000_0000
  {
    assert (RAM_VIRTUAL_BASE + x) / 0x4000_0000 == 0x3_FFFE_0000 + x / 0x4000_0000;
  }

  lemma WindowIndex3(x: nat)
    requires x < 0x7F80_0000_0000
    ensures (RAM_VIRTUAL_BASE + x) / Span(3) % 512 == x / 0x20_0000 % 512
    ensures (RAM_VIRTUAL_BASE + x) % Span(3) == x % 0x20_0000
  {
    assert (RAM_VIRTUAL_BASE + x) / 0x20_0000 == 0x7FF_FC00_0000 + x / 0x20_0000;
  }

  lemma Offsets(x: nat)
    ensures x == x / 0x4000_0000 * 0x4000_0000 + x % 0x4000_0000
    ensures x == x / 0x4000_0000 * 0x4000_0000 + x / 0x20_0000 % 512 * 0x20_0000 + x % 0x20_0000
  {
    var m := x / 0x20_0000;
    assert x / 0x4000_0000 == m / 512;
    assert m == m / 512 * 512 + m % 512;
  }

  /** Byte x of RAM is at RAM_VIRTUAL_BASE + x. */
  ghost predicate SeesRam(mem: map<int, seq<Entry>>, root: int, x: nat)
  {
    Translate(mem, root, 1, RAM_VIRTUAL_BASE + x) == Some(x)
  }

  /** With 1 GB pages and with 2 MB pages. */
  lemma WindowTranslates(mem: map<int, seq<Entry>>, root: int, w: Window, x: nat)
    requires WindowAt(mem, root, w, x / 0x4000_0000)
    ensures SeesRam(mem, root, x) == true
  {
    var g, v := x / 0x4000_0000, RAM_VIRTUAL_BASE + x;
    Offsets(x);
    WindowIndex1(x);
    WindowIndex2(x);
    assert Translate(mem, root, 1, v) == Translate(mem, w.ptrs[g / 512], 2, v);
    if !w.big {
      WindowIndex3(x);
      assert Translate(mem, w.ptrs[g / 512], 2, v) == Translate(mem, w.tables[g], 3, v);
    }
  }

  lemma WindowIsRam(t: Tables, root: int, w: Window, role: map<int, int>, n: nat, x: nat)
    requires Built(t, root, w, role, n) == true && x < n * 0x4000_0000
    ensures SeesRam(t.mem, root, x) == true
  {
    assert WindowAt(t.mem, root, w, x / 0x4000_0000) == true;
    WindowTranslates(t.mem, root, w, x);
  }

  // Building it

  /** A frame that belongs to the window does not concern the kernel's part of the tree. */
  lemma HeldWrite(t: Tables, root: int, f: int, entries: seq<Entry>)
    requires Rooted(t, root) && f in t.owner && t.owner[f] == Held
    ensures Rooted(t.(mem := t.mem[f := entries]), root) == true && SameView(t, t.(mem := t.mem[f := entries])) == true
  {
    var t' := t.(mem := t.mem[f := entries]);
    forall n | n in t.dirs ensures t.dirs[n] in t'.mem && t.dirs[n] in t.mem && t'.mem[t.dirs[n]] == t.mem[t.dirs[n]]
      && |t.mem[t.dirs[n]]| == 512 {
      assert NodeOk(t, n) == true;
    }
    SameTree(t, t', root);
  }

  lemma RootWrite(t: Tables, root: int, i: int, e: Entry)
    requires Rooted(t, root) && 0 <= i < 512 && i != KERNEL_SLOT
    ensures root in t.mem && |t.mem[root]| == 512
    ensures Rooted(t.(mem := t.mem[root := t.mem[root][i := e]]), root) == true
    ensures SameView(t, t.(mem := t.mem[root := t.mem[root][i := e]])) == true
  {
    assert NodeOk(t, Node(1, 0)) == true;
    var t' := t.(mem := t.mem[root := t.mem[root][i := e]]);
    forall n | n in t.dirs && n != Node(1, 0) ensures t.dirs[n] in t'.mem && t.dirs[n] in t.mem
      && t'.mem[t.dirs[n]] == t.mem[t.dirs[n]] {
      assert NodeOk(t, n) == true;
    }
    SameTree(t, t', root);
  }

  /** Only what is in the directories, and in the kernel's slot of the root, matters. */
  lemma SameTree(t: Tables, t': Tables, root: int)
    requires Rooted(t, root) && t' == t.(mem := t'.mem)
    requires forall n :: n in t.dirs && n != Node(1, 0) ==> t.dirs[n] in t'.mem && t.dirs[n] in t.mem
                                                            && t'.mem[t.dirs[n]] == t.mem[t.dirs[n]]
    requires root in t.mem && root in t'.mem && |t.mem[root]| == |t'.mem[root]| == 512
    requires t'.mem[root][KERNEL_SLOT] == t.mem[root][KERNEL_SLOT]
    ensures Rooted(t', root) == true && SameView(t, t') == true
  {
    forall p ensures View(t', p) == View(t, p) {
      if Node(4, p / 512) in t.dirs { assert NodeOk(t, Node(4, p / 512)) == true; }
    }
    forall m | m in t'.dirs ensures NodeOk(t', m) == true { assert NodeOk(t, m) == true; }
    forall m, j | Inner(t', m, j) ensures EntryOk(t', m, j) == true {
      assert Inner(t, m, j) && NodeOk(t, m) == true;
      assert EntryOk(t, m, j) == true;
    }
    forall m, j ensures DirEntryOk(t', m, j) == true {
      assert DirEntryOk(t, m, j) == true; if m in t.dirs { assert NodeOk(t, m) == true; }
    }
    forall k | 0 <= k < |t'.free| ensures FreeOk(t', k) == true { assert FreeOk(t, k) == true; }
    forall g | g in t'.owner ensures OwnerOk(t', g) == true { assert OwnerOk(t, g) == true; }
  }

  lemma PopRooted(t: Tables, root: int)
    requires Rooted(t, root) && |t.free| > 0
    ensures Rooted(Popped(t), root) == true && Popped(t).owner[t.free[|t.free| - 1]] == Held
    ensures var f := t.free[|t.free| - 1]; f in t.owner && t.owner[f].Free? && f != root && f != 0
  {
    PopWalkable(t);
    PopFramed(t);
    var t' := Popped(t);
    assert NodeOk(t, Node(1, 0)) == true;
    forall m, j ensures DirEntryOk(t', m, j) == true { assert DirEntryOk(t, m, j) == true; }
  }

  /** Frames of the window are told apart by their roles. */
  ghost predicate PtrOk(t: Tables, w: Window, role: map<int, int>, i: int)
    requires 0 <= i < |w.ptrs|
  {
    var f := w.ptrs[i];
    f in t.owner && t.owner[f] == Held && f in role && role[f] == i && f in t.mem && |t.mem[f]| == 512
  }

  ghost predicate TableOk(t: Tables, w: Window, role: map<int, int>, g: int)
    requires 0 <= g < |w.tables|
  {
    var f := w.tables[g];
    f in t.owner && t.owner[f] == Held && f in role && role[f] == -1 - g && f in t.mem
  }

  /** The first n gigabytes are mapped; the root slots and entries that come next are empty. */
  ghost predicate Built(t: Tables, root: int, w: Window, role: map<int, int>, n: nat)
  {
    && n <= 255 * 512 && |w.ptrs| == (n + 511) / 512 && |w.tables| == (if w.big then 0 else n)
    && root in t.mem && |t.mem[root]| == 512
    && (forall g: nat {:trigger WindowAt(t.mem, root, w, g)} :: g < n ==> WindowAt(t.mem, root, w, g))
    && (forall i {:trigger PtrOk(t, w, role, i)} :: 0 <= i < |w.ptrs| ==> PtrOk(t, w, role, i))
    && (forall g {:trigger TableOk(t, w, role, g)} :: 0 <= g < |w.tables| ==> TableOk(t, w, role, g))
    && (forall i {:trigger t.mem[root][i]} :: WINDOW_SLOT + |w.ptrs| <= i < KERNEL_SLOT ==> t.mem[root][i] == EMPTY)
    && EmptyBehind(t, w, n)
  }

  ghost predicate EmptyBehind(t: Tables, w: Window, n: nat)
  {
    n % 512 != 0 && n / 512 < |w.ptrs| && w.ptrs[n / 512] in t.mem && |t.mem[w.ptrs[n / 512]]| == 512 ==>
      forall j {:trigger t.mem[w.ptrs[n / 512]][j]} :: n % 512 <= j < 512 ==> t.mem[w.ptrs[n / 512]][j] == EMPTY
  }

  /** The next page-directory-pointer table. */
  lemma BuildPtr(t: Tables, root: int, w: Window, role: map<int, int>, n: nat, t': Tables)
    requires Rooted(t, root) && Built(t, root, w, role, n) && n % 512 == 0 && n < 255 * 512 && |t.free| > 0
    requires var f := t.free[|t.free| - 1];
             t' == Popped(t).(mem := t.mem[f := Zeros()][root :=
                                                         t.mem[root][WINDOW_SLOT + n / 512 := Entry(f, DIR_FLAGS)]])
    ensures var f := t.free[|t.free| - 1];
            && Rooted(t', root) == true && NextPtr(t', root, w.(ptrs := w.ptrs + [f]), role[f := n / 512], n) == true
  {
    var f := t.free[|t.free| - 1];
    PopRooted(t, root);
    var t1 := Popped(t);
    HeldWrite(t1, root, f, Zeros());
    var t2 := t1.(mem := t1.mem[f := Zeros()]);
    RootWrite(t2, root, WINDOW_SLOT + n / 512, Entry(f, DIR_FLAGS));
    var w', role' := w.(ptrs := w.ptrs + [f]), role[f := n / 512];
    forall g: nat | g < n ensures WindowAt(t'.mem, root, w', g) == true {
      assert WindowAt(t.mem, root, w, g) == true && PtrOk(t, w, role, g / 512) == true;
      if !w.big { assert TableOk(t, w, role, g) == true; }
      NodeRoot(t, root, w.ptrs[g / 512]);
      if !w.big { NodeRoot(t, root, w.tables[g]); }
    }
    forall i | 0 <= i < |w'.ptrs| ensures PtrOk(t', w', role', i) == true {
      if i < |w.ptrs| { assert PtrOk(t, w, role, i) == true; NodeRoot(t, root, w.ptrs[i]); }
    }
    forall g | 0 <= g < |w'.tables| ensures TableOk(t', w', role', g) == true { assert TableOk(t, w, role, g) == true; }
  }

  /** The root is not held. */
  lemma NodeRoot(t: Tables, root: int, f: int)
    requires Rooted(t, root) && f in t.owner && t.owner[f] == Held
    ensures f != root
  {
    assert NodeOk(t, Node(1, 0)) == true;
  }

  /** The table for gigabyte n is there, and its entry is still empty. */
  ghost predicate NextPtr(t: Tables, root: int, w: Window, role: map<int, int>, n: nat)
  {
    && n < 255 * 512 && |w.ptrs| == n / 512 + 1 && |w.tables| == (if w.big then 0 else n)
    && root in t.mem && |t.mem[root]| == 512 && t.mem[root][WINDOW_SLOT + n / 512] == Entry(w.ptrs[n / 512], DIR_FLAGS)
    && (forall g: nat {:trigger WindowAt(t.mem, root, w, g)} :: g < n ==> WindowAt(t.mem, root, w, g))
    && (forall i {:trigger PtrOk(t, w, role, i)} :: 0 <= i < |w.ptrs| ==> PtrOk(t, w, role, i))
    && (forall g {:trigger TableOk(t, w, role, g)} :: 0 <= g < |w.tables| ==> TableOk(t, w, role, g))
    && (forall i {:trigger t.mem[root][i]} :: WINDOW_SLOT + |w.ptrs| <= i < KERNEL_SLOT ==> t.mem[root][i] == EMPTY)
    && (PtrOk(t, w, role, n / 512) ==> forall j {:trigger t.mem[w.ptrs[n / 512]][j]} :: n % 512 <= j < 512 ==>
        t.mem[w.ptrs[n / 512]][j] == EMPTY)
  }

  lemma PtrThere(t: Tables, root: int, w: Window, role: map<int, int>, n: nat)
    requires Built(t, root, w, role, n) && n % 512 != 0 && n < 255 * 512
    ensures NextPtr(t, root, w, role, n) == true
  {
    assert WindowAt(t.mem, root, w, n - 1) == true;
    assert (n - 1) / 512 == n / 512;
  }

  /** Writing the entry of gigabyte n changes nothing of the gigabytes before. */
  lemma EarlierStay(t: Tables, mem: map<int, seq<Entry>>, root: int, w: Window, role: map<int, int>, n: nat,
                    tables: seq<int>, e: Entry, g: nat)
    requires Rooted(t, root) && NextPtr(t, root, w, role, n) && g < n && PtrOk(t, w, role, n / 512)
    requires w.tables <= tables
    requires var ptr := w.ptrs[n / 512];
             && (forall f :: f in t.mem && f != ptr && f in t.owner && !t.owner[f].Free? ==> f in mem
                                                                                             && mem[f] == t.mem[f])
             && ptr in mem && mem[ptr] == t.mem[ptr][n % 512 := e]
    ensures WindowAt(mem, root, w.(tables := tables), g) == true
  {
    assert NodeOk(t, Node(1, 0)) == true;
    assert WindowAt(t.mem, root, w, g) == true && PtrOk(t, w, role, g / 512) == true;
    if !w.big { assert TableOk(t, w, role, g) == true; }
    assert g / 512 == n / 512 ==> g % 512 != n % 512;
  }

  /** One 1 GB page. */
  lemma BuildBig(t: Tables, root: int, w: Window, role: map<int, int>, n: nat, t': Tables)
    requires Rooted(t, root) && NextPtr(t, root, w, role, n) && w.big && PtrOk(t, w, role, n / 512)
    requires var ptr := w.ptrs[n / 512];
             t' == t.(mem := t.mem[ptr := t.mem[ptr][n % 512 := Entry(n * 0x4000_0000, LARGE_FLAGS)]])
    ensures Rooted(t', root) == true && Built(t', root, w, role, n + 1) == true
  {
    var ptr := w.ptrs[n / 512];
    HeldWrite(t, root, ptr, t'.mem[ptr]);
    NodeRoot(t, root, ptr);
    forall g: nat | g < n + 1 ensures WindowAt(t'.mem, root, w, g) == true {
      if g < n { EarlierStay(t, t'.mem, root, w, role, n, w.tables, Entry(n * 0x4000_0000, LARGE_FLAGS), g); }
    }
    forall i | 0 <= i < |w.ptrs| ensures PtrOk(t', w, role, i) == true { assert PtrOk(t, w, role, i) == true; }
    Ceiling(n);
    assert (n + 1) % 512 != 0 ==> (n + 1) / 512 == n / 512 && (n + 1) % 512 == n % 512 + 1;
  }

  lemma Ceiling(n: nat)
    ensures (n + 1 + 511) / 512 == n / 512 + 1
  {
  }

  /** A table of 512 pages of 2 MB. */
  lemma BuildTable(t: Tables, root: int, w: Window, role: map<int, int>, n: nat, t': Tables)
    requires Rooted(t, root) && NextPtr(t, root, w, role, n) && !w.big && PtrOk(t, w, role, n / 512) && |t.free| > 0
    requires var ptr, q := w.ptrs[n / 512], t.free[|t.free| - 1];
             t' == Popped(t).(mem := t.mem[q := LargeTable(n)][ptr := t.mem[ptr][n % 512 := Entry(q, DIR_FLAGS)]])
    ensures var q := t.free[|t.free| - 1];
            Rooted(t', root) == true && Built(t', root, w.(tables := w.tables + [q]), role[q := -1 - n], n + 1) == true
  {
    var ptr, q := w.ptrs[n / 512], t.free[|t.free| - 1];
    PopRooted(t, root);
    var t1 := Popped(t);
    HeldWrite(t1, root, q, LargeTable(n));
    var t2 := t1.(mem := t1.mem[q := LargeTable(n)]);
    HeldWrite(t2, root, ptr, t'.mem[ptr]);
    NodeRoot(t, root, ptr);
    var w', role' := w.(tables := w.tables + [q]), role[q := -1 - n];
    forall g: nat | g < n + 1 ensures WindowAt(t'.mem, root, w', g) == true {
      if g < n { EarlierStay(t, t'.mem, root, w, role, n, w'.tables, Entry(q, DIR_FLAGS), g); }
    }
    forall i | 0 <= i < |w'.ptrs| ensures PtrOk(t', w', role', i) == true { assert PtrOk(t, w, role, i) == true; }
    forall g | 0 <= g < |w'.tables| ensures TableOk(t', w', role', g) == true {
      if g < n { assert TableOk(t, w, role, g) == true; }
    }
    Ceiling(n);
    assert (n + 1) % 512 != 0 ==> (n + 1) / 512 == n / 512 && (n + 1) % 512 == n % 512 + 1;
  }

  /** The frames that the tables of a window of n gigabytes take. */
  function WindowFrames(big: bool, n: nat): nat { (n + 511) / 512 + if big then 0 else n }

  /** The frames that gigabyte g takes if those before it are there. */
  function NextFrames(big: bool, g: nat): nat { (if g % 512 == 0 then 1 else 0) + if big then 0 else 1 }

  lemma FramesStep(big: bool, g: nat)
    ensures WindowFrames(big, g + 1) == WindowFrames(big, g) + NextFrames(big, g)
  {
  }

  lemma {:induction false} FramesGrow(big: bool, m: nat, n: nat)
    requires m <= n
    ensures WindowFrames(big, m) <= WindowFrames(big, n)
    decreases n
  {
    if m < n {
      FramesGrow(big, m, n - 1);
      FramesStep(big, n - 1);
    }
  }

  /** The gigabytes that cover the addresses below `memEnd`. */
  function Gigabytes(memEnd: nat): nat { (memEnd + 0x3FFF_FFFF) / 0x4000_0000 }

  /** Kernel mappings leave the window as it is. */
  lemma WindowStays(t: Tables, t': Tables, root: int, w: Window, role: map<int, int>, n: nat, g: nat)
    requires Built(t, root, w, role, n) && KeepsRest(t, t', root) && g < n
    ensures WindowAt(t'.mem, root, w, g) == true
  {
    assert WindowAt(t.mem, root, w, g) == true && PtrOk(t, w, role, g / 512) == true;
    if !w.big { assert TableOk(t, w, role, g) == true; }
    assert t'.mem[root][WINDOW_SLOT + g / 512] == t.mem[root][WINDOW_SLOT + g / 512];
  }

  /** The tables the loader leaves are tables the kernel can take over, with any stack of frames that are neither
      directories nor mapped. */
  lemma HandsOver(t: Tables, root: int, free: seq<int>)
    requires Rooted(t, root) && FreshFrames(t, free)
    requires forall p {:trigger View(t, p)} :: View(t, p).flags.present ==> View(t, p).addr !in free
                                                                            && !IsDirectory(t, View(t, p).addr)
    ensures HandedOver(t.mem, free, t.dirs, {KERNEL_SLOT})
  {
    forall n | n in t.dirs ensures t.dirs[n] in t.owner && t.owner[t.dirs[n]] == Dir(n) { assert NodeOk(t, n) == true; }
    forall n, k | n in t.dirs && 0 <= k < |free| ensures t.dirs[n] != free[k] { assert free[k] in free; }
    var t' := FirstTables(t.mem, free, t.dirs, {KERNEL_SLOT});
    TreeFrame(t, t');
    forall p ensures !Owns(t'.owner.Keys, View(t', p)) { var v := View(t, p); }
  }

  ghost predicate FreshFrames(t: Tables, free: seq<int>)
  {
    && (forall i, j :: 0 <= i < |free| && 0 <= j < |free| && free[i] == free[j] ==> i == j)
    && 0 !in free && forall f :: f in free ==> !IsDirectory(t, f)
  }

  class PagingManager {
    const root: int
    var mem: map<int, seq<Entry>>

    /** The frames the firmware is going to hand out, the next one last. */
    var free: seq<int>
    var currentPageDir: int
    var currentPageDirBase: nat
    var freeKernelVirtualMemory: nat
    ghost var dirs: map<Node, int>
    ghost var owner: map<int, Owner>
    ghost var window: Window
    ghost var role: map<int, int>

    ghost function Snapshot(): Tables
      reads this
    {
      Tables(mem, free, dirs, owner, {KERNEL_SLOT})
    }

    ghost predicate Good()
      reads this
    {
      && Rooted(Snapshot(), root) && CacheOk(Snapshot(), currentPageDir, currentPageDirBase)
      && (currentPageDir == 0 ==> currentPageDirBase == 0)
    }

    /** A root table whose lower half is the firmware's and whose upper half is empty; `frames` are those the firmware
        will hand out. */
    constructor (frames: seq<int>, lower: seq<Entry>, big: bool)
      requires |frames| > 0 && |lower| == 256 && (forall i :: 0 <= i < |frames| ==> frames[i] != 0)
      requires forall i, j :: 0 <= i < j < |frames| ==> frames[i] != frames[j]
      ensures Good() && Built(Snapshot(), root, window, role, 0) && window == Window(big, [], [])
      ensures freeKernelVirtualMemory == KERNEL_VIRTUAL_BASE && currentPageDir == 0 && currentPageDirBase == 0
      ensures mem[root][..256] == lower
    {
      var f := frames[|frames| - 1];
      root := f;
      mem := map[f := lower + seq(256, _ => EMPTY)];
      free := frames[..|frames| - 1];
      currentPageDir, currentPageDirBase, freeKernelVirtualMemory := 0, 0, KERNEL_VIRTUAL_BASE;
      dirs := map[Node(1, 0) := f];
      owner := (map k | 0 <= k < |frames| - 1 :: frames[k] := Free(k))[f := Dir(Node(1, 0))];
      window, role := Window(big, [], []), map[];
      new;
      ghost var t := Snapshot();
      assert NodeOk(t, Node(1, 0)) == true;
      forall n, i | Inner(t, n, i) ensures EntryOk(t, n, i) == true {}
      forall n, i ensures DirEntryOk(t, n, i) == true {}
      forall k | 0 <= k < |t.free| ensures FreeOk(t, k) == true { assert frames[k] == t.free[k]; }
      forall g | g in t.owner ensures OwnerOk(t, g) == true {}
    }

    /** `accessToDirPtrEntry` for gigabyte g of the window. */
    method WindowPtr(g: nat) returns (ok: bool, ptr: int)
      requires Rooted(Snapshot(), root) == true && Built(Snapshot(), root, window, role, g) == true && g < 255 * 512
      modifies this`mem, this`free, this`owner, this`window, this`role
      ensures ok ==> Rooted(Snapshot(), root) == true && NextPtr(Snapshot(), root, window, role, g) == true
                     && ptr == window.ptrs[g / 512] && window.big == old(window).big
      ensures ok <==> NextFrames(true, g) <= |old(free)|
      ensures |free| == if ok then |old(free)| - NextFrames(true, g) else |old(free)|
    {
      ghost var t := Snapshot();
      var item := mem[root][WINDOW_SLOT + g / 512];
      if item != EMPTY {
        PtrThere(t, root, window, role, g);
        return true, item.addr;
      }
      if g % 512 != 0 { PtrThere(t, root, window, role, g); }
      if free == [] {
        return false, 0;
      }
      ptr := free[|free| - 1];
      free := free[..|free| - 1];
      owner := owner[ptr := Held];
      mem := mem[ptr := Zeros()];
      mem := mem[root := mem[root][WINDOW_SLOT + g / 512 := Entry(ptr, DIR_FLAGS)]];
      PopRooted(t, root);
      BuildPtr(t, root, window, role, g, Snapshot());
      window, role := window.(ptrs := window.ptrs + [ptr]), role[ptr := g / 512];
      ok := true;
    }

    /** `map1GbPage`: gigabyte g of RAM becomes visible in the window. The panic that it already was cannot happen. */
    method Map1GbPage(g: nat, big: bool) returns (ok: bool)
      requires big == window.big && Rooted(Snapshot(), root) == true
      requires Built(Snapshot(), root, window, role, g) == true && g < 255 * 512
      modifies this`mem, this`free, this`owner, this`window, this`role
      ensures ok ==> Rooted(Snapshot(), root) == true && Built(Snapshot(), root, window, role, g + 1) == true
                     && window.big == old(window).big
      ensures ok <==> NextFrames(big, g) <= |old(free)|
      ensures ok ==> |free| == |old(free)| - NextFrames(big, g)
    {
      var ptr;
      ok, ptr := WindowPtr(g);
      if !ok { return; }
      ghost var t := Snapshot();
      assert PtrOk(t, window, role, g / 512) == true;
      if mem[ptr][g % 512] != EMPTY {
        assert false;
        return false;
      }
      if big {
        mem := mem[ptr := mem[ptr][g % 512 := Entry(g * 0x4000_0000, LARGE_FLAGS)]];
        BuildBig(t, root, window, role, g, Snapshot());
      } else {
        ok := MapTable(g, ptr);
      }
    }

    /** Without 1 GB pages: a table for the gigabyte. */
    method MapTable(g: nat, ptr: int) returns (ok: bool)
      requires Rooted(Snapshot(), root) == true && NextPtr(Snapshot(), root, window, role, g) == true && !window.big
      requires ptr == window.ptrs[g / 512] && PtrOk(Snapshot(), window, role, g / 512) == true
      modifies this`mem, this`free, this`owner, this`window, this`role
      ensures ok ==> Rooted(Snapshot(), root) == true && Built(Snapshot(), root, window, role, g + 1) == true
                     && window.big == old(window).big
      ensures ok <==> old(free) != []
      ensures ok ==> |free| == |old(free)| - 1
    {
      ghost var t := Snapshot();
      if free == [] {
        return false;
      }
      var q := free[|free| - 1];
      var table := FillTable(g);
      PopRooted(t, root);
      free := free[..|free| - 1];
      owner := owner[q := Held];
      mem := mem[q := table];
      mem := mem[ptr := mem[ptr][g % 512 := Entry(q, DIR_FLAGS)]];
      BuildTable(t, root, window, role, g, Snapshot());
      window, role := window.(tables := window.tables + [q]), role[q := -1 - g];
      ok := true;
    }

    /** The loop over 512 pages of 2 MB. */
    method FillTable(g: nat) returns (table: seq<Entry>)
      ensures table == LargeTable(g)
    {
      table := Zeros();
      var physBase := g * 0x4000_0000;
      var idx := 0;
      while idx < 512
        invariant 0 <= idx <= 512 && |table| == 512 && physBase == g * 0x4000_0000 + idx * 0x20_0000
        invariant forall k :: 0 <= k < idx ==> table[k] == Entry(g * 0x4000_0000 + k * 0x20_0000, LARGE_FLAGS)
      {
        table := table[idx := Entry(physBase, LARGE_FLAGS)];
        physBase := physBase + 0x20_0000;
        idx := idx + 1;
      }
    }

    /** The loop of the constructor: the window covers all RAM up to `memEnd`. It panics exactly if the firmware has not
        enough frames for the tables. */
    method MapAllRam(memEnd: nat, big: bool) returns (ok: bool, ghost n: nat)
      requires big == window.big && Good() && Built(Snapshot(), root, window, role, 0) && memEnd <= 0x7F80_0000_0000
      requires currentPageDir == 0
      modifies this`mem, this`free, this`owner, this`window, this`role
      ensures ok ==> Good() && Built(Snapshot(), root, window, role, n) && n == Gigabytes(memEnd)
                     && window.big == old(window).big
      ensures ok ==> forall x: nat {:trigger SeesRam(mem, root, x)} :: x < memEnd ==> SeesRam(mem, root, x)
      ensures ok <==> WindowFrames(big, Gigabytes(memEnd)) <= |old(free)|
      ensures ok ==> |free| == |old(free)| - WindowFrames(big, Gigabytes(memEnd))
    {
      var addr := 0;
      n := 0;
      while addr < memEnd
        invariant addr == n * 0x4000_0000 && n <= 255 * 512 && currentPageDir == 0
        invariant Rooted(Snapshot(), root) == true && Built(Snapshot(), root, window, role, n) == true
        invariant window.big == old(window).big && n <= Gigabytes(memEnd)
        invariant |free| == |old(free)| - WindowFrames(big, n)
        decreases memEnd - addr
      {
        assert addr / 0x4000_0000 == n;
        FramesStep(big, n);
        FramesGrow(big, n + 1, Gigabytes(memEnd));
        ok := Map1GbPage(addr / 0x4000_0000, big);
        if !ok { return; }
        addr := addr + 0x4000_0000;
        n := n + 1;
      }
      ok := true;
      forall x: nat | x < memEnd ensures SeesRam(mem, root, x) == true {
        WindowIsRam(Snapshot(), root, window, role, n, x);
      }
    }

    /** The directory behind an entry, created if the entry is empty. */
    method ChildDir(dir: int, index: int, ghost n: Node) returns (ok: bool, child: int)
      requires Rooted(Snapshot(), root) == true
      requires Inner(Snapshot(), n, index) && dirs[n] == dir
      modifies this`mem, this`free, this`dirs, this`owner
      ensures Rooted(Snapshot(), root) == true && Extends(old(Snapshot()), Snapshot(), root) == true
      ensures ok ==> Child(n, index) in dirs && dirs[Child(n, index)] == child
      ensures ok <==> Child(n, index) in old(dirs) || old(free) != []
      ensures if ok then dirs.Keys == old(dirs).Keys + {Child(n, index)} else Snapshot() == old(Snapshot())
    {
      ghost var t := Snapshot();
      assert NodeOk(t, n) == true && EntryOk(t, n, index) == true && NodeOk(t, Node(1, 0)) == true;
      if Child(n, index) in dirs { assert NodeOk(t, Child(n, index)) == true; }
      if mem[dir][index] == EMPTY {
        if free == [] {
          return false, 0;
        }
        WithDirFramed(t, n, index, DIR_FLAGS);
        WithDirWalkable(t, n, index, DIR_FLAGS);
        WithDirRest(t, n, index);
        var f := free[|free| - 1];
        free := free[..|free| - 1];
        mem := mem[f := Zeros()];
        mem := mem[dir := mem[dir][index := Entry(f, DIR_FLAGS)]];
        dirs, owner := dirs[Child(n, index) := f], owner[f := Dir(Child(n, index))];
        assert FreeOk(t, |t.free| - 1) == true;
        assert Snapshot() == WithDir(t, n, index, DIR_FLAGS);
        assert EntryOk(Snapshot(), n, index) == true;
      }
      return true, mem[dir][index].addr;
    }

    /** The part of `accessToPageTableEntry` that walks: from the root to the page directory of an address of the
        kernel, and on to its page table. */
    method WalkToDirectory(v: nat) returns (ok: bool, dir: int)
      requires Rooted(Snapshot(), root) == true
      requires Page(v) / 0x800_0000 == KERNEL_SLOT
      modifies this`mem, this`free, this`dirs, this`owner
      ensures Rooted(Snapshot(), root) == true && Extends(old(Snapshot()), Snapshot(), root) == true
      ensures ok ==> Node(3, Page(v) / 0x4_0000) in dirs && dirs[Node(3, Page(v) / 0x4_0000)] == dir
      ensures ok ==> PathTo(old(Snapshot()), Snapshot(), 3, Page(v)) == true
      ensures !ok ==> Walked(old(Snapshot()), Snapshot(), 1, Page(v), Page(v), false) == true && free == []
    {
      var p := Page(v);
      Nested(p);
      ghost var t, n2, n3 := Snapshot(), Node(2, p / 0x800_0000), Node(3, p / 0x4_0000);
      var i := p / 0x4_0000 % 512;
      assert Child(Node(1, 0), p / 0x800_0000 % 512) == n2 && Child(n2, i) == n3;
      var dirPtr;
      ok, dirPtr := ChildDir(root, p / 0x800_0000 % 512, Node(1, 0));
      ghost var t1 := Snapshot();
      PathFirst(t, t1, p, ok);
      if !ok { return false, 0; }
      NoLargePage(t1, root, n2, i);
      if mem[dirPtr][i] != EMPTY && Global(mem[dirPtr][i].flags) {
        assert false;
        return false, 0;
      }
      ok, dir := ChildDir(dirPtr, i, n2);
      ExtendsTwice(t, t1, Snapshot(), root);
      PathNext(t, t1, Snapshot(), 2, p, ok);
    }

    method WalkToTable(v: nat) returns (ok: bool, dir: int)
      requires Rooted(Snapshot(), root) == true
      requires Page(v) / 0x800_0000 == KERNEL_SLOT
      modifies this`mem, this`free, this`dirs, this`owner
      ensures Rooted(Snapshot(), root) == true && Extends(old(Snapshot()), Snapshot(), root) == true
      ensures ok ==> Node(4, Page(v) / 512) in dirs && dirs[Node(4, Page(v) / 512)] == dir
      ensures Walked(old(Snapshot()), Snapshot(), 1, Page(v), Page(v), ok) == true && (!ok ==> free == [])
    {
      var p := Page(v);
      Nested(p);
      ghost var t, n3 := Snapshot(), Node(3, p / 0x4_0000);
      assert Child(n3, p / 512 % 512) == Node(4, p / 512);
      var pageDir;
      ok, pageDir := WalkToDirectory(v);
      if !ok { return false, 0; }
      ghost var t2 := Snapshot();
      ok, dir := ChildDir(pageDir, p / 512 % 512, n3);
      ExtendsTwice(t, t2, Snapshot(), root);
      PathNext(t, t2, Snapshot(), 3, p, ok);
      if ok { PathWhole(t, Snapshot(), p); }
    }

    /** `accessToPageTableEntry`: with and without the cache, the entry is the one in the page table a walk finds. */
    method AccessToPageTableEntry(v: nat) returns (ok: bool, dir: int, index: int)
      requires Good() && Page(v) / 0x800_0000 == KERNEL_SLOT
      modifies this`mem, this`free, this`dirs, this`owner, this`currentPageDir, this`currentPageDirBase
      ensures ok ==> Good() && Extends(old(Snapshot()), Snapshot(), root)
      ensures ok ==> HasLeaf(Snapshot(), Page(v)) && dirs[Node(4, Page(v) / 512)] == dir && index == Page(v) % 512
      ensures Walked(old(Snapshot()), Snapshot(), 1, Page(v), Page(v), ok) == true && (!ok ==> free == [])
      ensures Frames(Snapshot()) == Frames(old(Snapshot()))
      ensures ok <==> Missing(old(Snapshot()), Page(v), Page(v)) <= |old(free)|
    {
      ghost var t := Snapshot();
      index := Page(v) % 512;
      if Hit(currentPageDirBase, v) {
        ExtendsNone(t, root);
        SameTable(currentPageDirBase, v);
        PathThere(t, Page(v));
        WalkExact(t, t, Page(v), Page(v), true);
        ok := true;
      } else {
        ok, dir := WalkToTable(v);
        WalkExact(t, Snapshot(), Page(v), Page(v), ok);
        if !ok { return; }
        CacheSet(Snapshot(), dir, v);
        currentPageDir, currentPageDirBase := dir, AreaBase(v);
      }
      dir := currentPageDir;
      assert NodeOk(Snapshot(), Node(4, Page(v) / 512)) == true;
    }

    /** `mapPage`. */
    method MapPage(v: nat, physBase: nat, readOnly: bool, wc: bool) returns (ok: bool)
      requires Good() && Page(v) / 0x800_0000 == KERNEL_SLOT
      modifies this`mem, this`free, this`dirs, this`owner, this`currentPageDir, this`currentPageDirBase
      ensures ok ==> Good() && OneMapped(old(Snapshot()), Snapshot(), root, Page(v),
                                         Entry(physBase / 4096 * 4096, MapFlags(readOnly, wc))) == true
      ensures Walked(old(Snapshot()), Snapshot(), 1, Page(v), Page(v), ok) == true && (!ok ==> free == [])
      ensures Frames(Snapshot()) == Frames(old(Snapshot()))
      ensures ok <==> Missing(old(Snapshot()), Page(v), Page(v)) <= |old(free)|
    {
      ghost var t := Snapshot();
      var dir, index;
      ok, dir, index := AccessToPageTableEntry(v);
      if !ok { return; }
      ghost var t1, e := Snapshot(), Entry(physBase / 4096 * 4096, MapFlags(readOnly, wc));
      WithLeafFramed(t1, Page(v), e);
      WithLeafRest(t1, Page(v), e);
      forall p ensures View(WithLeaf(t1, Page(v), e), p) == if p == Page(v) then e else View(t1, p) {
        WithLeafView(t1, Page(v), e, p);
      }
      mem := mem[dir := mem[dir][index := Entry(physBase / 4096 * 4096, MapFlags(readOnly, wc))]];
      assert Snapshot() == WithLeaf(t1, Page(v), e);
      KeepsTwice(t, t1, Snapshot(), root);
      CacheGrows(t1, Snapshot(), currentPageDir, currentPageDirBase);
    }

    /** `mapToKernel`: the pages of `size` bytes are mapped one after the other at the next free kernel addresses. It
        panics exactly if the firmware has not enough frames for the directories they need. */
    method MapToKernel(phys: nat, size: nat, readOnly: bool, wc: bool) returns (ok: bool, ret: nat)
      requires Good() && KernelRange(freeKernelVirtualMemory, PageCount(size))
      modifies this`mem, this`free, this`dirs, this`owner, this`currentPageDir, this`currentPageDirBase,
               this`freeKernelVirtualMemory
      ensures ok ==> Good() == true && KeepsRest(old(Snapshot()), Snapshot(), root) == true
      ensures ok ==> ret == old(freeKernelVirtualMemory) && freeKernelVirtualMemory == ret + 4096 * PageCount(size)
      ensures ok ==> Mapped(old(Snapshot()), Snapshot(), Page(ret), PageCount(size), phys / 4096 * 4096,
                            MapFlags(readOnly, wc)) == true
      ensures ok <==> MissingFor(old(Snapshot()), old(freeKernelVirtualMemory), PageCount(size)) <= |old(free)|
      ensures ok ==> |free| == |old(free)| - MissingFor(old(Snapshot()), ret, PageCount(size))
    {
      ret := freeKernelVirtualMemory;
      ok := MapRun(ret, phys, PageCount(size), readOnly, wc, Page(ret), Page(ret) as int + PageCount(size) - 1);
      if ok { freeKernelVirtualMemory := freeKernelVirtualMemory + 4096 * PageCount(size); }
    }

    /** The loop: n pages from address v on, which are pages a to last. */
    method MapRun(v: nat, phys: nat, n: nat, readOnly: bool, wc: bool, ghost a: nat, ghost last: int) returns (ok: bool)
      requires Good() == true && KernelRange(v, n) && a == Page(v) && last == a + n - 1
      modifies this`mem, this`free, this`dirs, this`owner, this`currentPageDir, this`currentPageDirBase
      ensures ok ==> Good() == true
      ensures ok ==> SoFar(old(Snapshot()), Snapshot(), root, a, n, phys / 4096 * 4096, MapFlags(readOnly, wc)) == true
      ensures ok <==> Missing(old(Snapshot()), a, last) <= |old(free)|
      ensures ok ==> |free| == |old(free)| - Missing(old(Snapshot()), a, last)
    {
      ghost var t, frame, flags := Snapshot(), phys / 4096 * 4096, MapFlags(readOnly, wc);
      ExtendsNone(t, root);
      WalkedNone(t, 1, a);
      var i: nat := 0;
      while i < n
        invariant i <= n && Good() == true && SoFar(t, Snapshot(), root, a, i, frame, flags) == true
      {
        ghost var t1, c := Snapshot(), Page(v + 4096 * i);
        NextPage(v, n, i);
        FrameOf(phys, i);
        ok := MapPage(v + 4096 * i, phys + 4096 * i, readOnly, wc);
        if !ok {
          StopsAt(t, t1, Snapshot(), a, c, last);
          return;
        }
        NextMapped(t, t1, Snapshot(), root, a, i, frame, flags, c);
        i := i + 1;
      }
      WalkExact(t, Snapshot(), a, last, true);
      ok := true;
    }
  }
}
