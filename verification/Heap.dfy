/** The kernel heap of kernel/Heap.cpp: a boundary-tag allocator whose block headers, free
    lists and sentinels live in the memory it manages. */
module Heap {
  import opened FreeLists
  import opened HeapBlocks

  /** HEAP_MARKER_BUSY: what `m_busyMarker`, which shares its word with `m_szNext`, holds in a
      busy block. */
  const MARKER := 0xFFFF_FFFF_FFFF_FFFF

  const TABLE_SIZE := 21

  const MAX_ITERATIONS := 32

  /** The four words of every 32-byte cell of memory. A cell is a header only where a block or
      a sentinel starts; elsewhere these are the bytes of a payload or of free memory. */
  datatype Memory = Memory(
    szNext: map<int, int>,
    szPrev: map<int, int>,
    addrNext: map<int, int>,
    addrPrev: map<int, int>)

  function SetSzNext(m: Memory, a: int, v: int): Memory { m.(szNext := m.szNext[a := v]) }
  function SetSzPrev(m: Memory, a: int, v: int): Memory { m.(szPrev := m.szPrev[a := v]) }
  function SetAddrNext(m: Memory, a: int, v: int): Memory { m.(addrNext := m.addrNext[a := v]) }
  function SetAddrPrev(m: Memory, a: int, v: int): Memory { m.(addrPrev := m.addrPrev[a := v]) }

  /** `MemoryRegionHeader::size`. */
  function Size(m: Memory, b: int): int { Get(m.addrNext, b) - b }

  /** Cell a holds the same four words in both memories. */
  ghost predicate SameCell(m: Memory, m': Memory, a: int)
  {
    && Get(m.szNext, a) == Get(m'.szNext, a) && Get(m.szPrev, a) == Get(m'.szPrev, a)
    && Get(m.addrNext, a) == Get(m'.addrNext, a) && Get(m.addrPrev, a) == Get(m'.addrPrev, a)
  }

  ghost predicate SameAddr(m: Memory, m': Memory, a: int)
  {
    Agree(m.addrNext, m'.addrNext, a) && Agree(m.addrPrev, m'.addrPrev, a)
  }

  /** Only cells of H and cells from lo up to hi differ. */
  ghost predicate SameOutside(m: Memory, m': Memory, H: set<int>, lo: int, hi: int)
  {
    forall a {:trigger SameCell(m, m', a)} :: a !in H && !(lo <= a < hi) ==> SameCell(m, m', a)
  }

  /** Arbitrary contents for the cells from lo up to hi. */
  function Scramble(f: map<int, int>, junk: map<int, int>, lo: int, hi: int): map<int, int>
  {
    f + map a | a in junk && lo <= a < hi :: junk[a]
  }

  function ScrambleMemory(m: Memory, junk: Memory, lo: int, hi: int): Memory
  {
    Memory(Scramble(m.szNext, junk.szNext, lo, hi), Scramble(m.szPrev, junk.szPrev, lo, hi),
           Scramble(m.addrNext, junk.addrNext, lo, hi), Scramble(m.addrPrev, junk.addrPrev, lo, hi))
  }

  // ---------------------------------------------------------------------------------
  // The invariant
  // ---------------------------------------------------------------------------------

  /** The index of the bucket for blocks of a given size. */
  function Bucket(size: int): nat { if size > 0 then Log2(size) else 0 }

  /** The bucket of every free block. */
  ghost function Classes(bs: Blocks): map<int, nat>
  {
    map b | b in bs && !bs[b].busy :: Bucket(bs[b].next - b)
  }

  /** The header of block b says what the block is. */
  ghost predicate HeaderOk(m: Memory, bs: Blocks, b: int)
    requires b in bs
  {
    && Get(m.addrNext, b) == bs[b].next
    && Get(m.addrPrev, b) == bs[b].prev
    && (bs[b].busy ==> Get(m.szNext, b) == MARKER)
  }

  ghost predicate SentinelOk(m: Memory, us: Units, u: int)
    requires u in us
  {
    Get(m.addrNext, us[u]) == NULL
  }

  ghost predicate Encoded(m: Memory, bs: Blocks, us: Units)
  {
    && (forall b {:trigger HeaderOk(m, bs, b)} :: b in bs ==> HeaderOk(m, bs, b))
    && (forall u {:trigger SentinelOk(m, us, u)} :: u in us ==> SentinelOk(m, us, u))
  }

  /** Memory, list heads and, as history, the lists they spell out. */
  datatype Store = Store(mem: Memory, table: seq<int>, lists: seq<seq<int>>)

  /** The free lists hold the blocks of cls, in the buckets that cls says. */
  ghost predicate Listed(s: Store, cls: map<int, nat>)
  {
    |s.table| == TABLE_SIZE && Buckets(s.mem.szNext, s.mem.szPrev, s.table, s.lists, cls)
  }

  ghost predicate Consistent(s: Store, bs: Blocks, us: Units)
  {
    Tiled(bs, us) && Encoded(s.mem, bs, us) && Listed(s, Classes(bs))
  }

  lemma Pow2Of21()
    ensures Pow2(21) == 0x200000
  {
    assert Pow2(3) == 8;
    assert Pow2(6) == 64;
    assert Pow2(9) == 512;
    assert Pow2(12) == 4096;
    assert Pow2(15) == 32768;
    assert Pow2(18) == 262144;
  }

  /** A free block is smaller than 2 to the 21: its bucket exists. */
  lemma FreeBlockBucket(bs: Blocks, us: Units, b: int)
    requires Tiled(bs, us) && b in bs && !bs[b].busy
    ensures b < bs[b].next && bs[b].next - b < 0x200000 && Bucket(bs[b].next - b) < TABLE_SIZE
  {
    assert BlockOk(bs, us, b) == true && UnitOk(bs, us, bs[b].unit) == true;
    if b != bs[b].unit { assert Disjoint(bs, bs[b].unit, b) == true; }
    Pow2Of21();
    Log2Below(bs[b].next - b, 21);
  }

  /** The word of a free block that shares its place with the marker is never the marker. */
  lemma FreeNotMarked(s: Store, bs: Blocks, us: Units, b: int)
    requires Consistent(s, bs, us) && b in bs && !bs[b].busy
    ensures Get(s.mem.szNext, b) != MARKER
  {
    var cls := Classes(bs);
    var i := Position(s.mem.szNext, s.mem.szPrev, s.table, s.lists, cls, b);
    var list := s.lists[cls[b]];
    if i + 1 < |list| {
      assert list[i + 1] in cls;
      assert BlockOk(bs, us, list[i + 1]) == true;
      assert UnitOk(bs, us, bs[list[i + 1]].unit) == true;
    }
  }

  // ---------------------------------------------------------------------------------
  // What each operation does to memory, lists and blocks
  // ---------------------------------------------------------------------------------

  /** Between two snapshots only list words of blocks of cls and of x changed. */
  ghost predicate OnlyLinks(s: Store, s': Store, cls: map<int, nat>, x: int)
  {
    && s'.mem.addrNext == s.mem.addrNext && s'.mem.addrPrev == s.mem.addrPrev
    && SameOutside(s.mem, s'.mem, cls.Keys + {x}, 0, 0)
  }

  lemma LinksWiden(s: Store, s': Store, cls: map<int, nat>, n: int, x: int)
    requires OnlyLinks(s, s', cls - {n}, x)
    ensures OnlyLinks(s, s', cls, x) == true
  {
  }

  // Taking a whole block

  lemma TakeClasses(bs: Blocks, b: int)
    requires b in bs && !bs[b].busy
    ensures Classes(bs[b := bs[b].(busy := true)]) == Classes(bs) - {b}
  {
  }

  lemma TakeEncoded(s: Store, s2: Store, bs: Blocks, us: Units, b: int)
    requires Encoded(s.mem, bs, us) && b in bs && OnlyLinks(s, s2, Classes(bs), b) && Get(s2.mem.szNext, b) == MARKER
    ensures Encoded(s2.mem, bs[b := bs[b].(busy := true)], us) == true
  {
    var bs' := bs[b := bs[b].(busy := true)];
    forall c | c in bs' ensures HeaderOk(s2.mem, bs', c) == true {
      assert HeaderOk(s.mem, bs, c) == true && (c in Classes(bs) || c == b || SameCell(s.mem, s2.mem, c) == true);
    }
    forall u | u in us ensures SentinelOk(s2.mem, us, u) == true { assert SentinelOk(s.mem, us, u) == true; }
  }

  lemma TakeConsistent(s: Store, s1: Store, bs: Blocks, us: Units, b: int)
    requires Consistent(s, bs, us) && b in bs && !bs[b].busy
    requires OnlyLinks(s, s1, Classes(bs), b) && Listed(s1, Classes(bs) - {b})
    ensures var s2 := s1.(mem := SetSzNext(s1.mem, b, MARKER));
            && Consistent(s2, bs[b := bs[b].(busy := true)], us)
            && OnlyLinks(s, s2, Classes(bs), b)
  {
    var s2 := s1.(mem := SetSzNext(s1.mem, b, MARKER));
    forall a | a !in Classes(bs).Keys + {b} ensures SameCell(s.mem, s2.mem, a) == true {
      assert SameCell(s.mem, s1.mem, a) == true;
    }
    TakeTiled(bs, us, b);
    TakeClasses(bs, b);
    TakeEncoded(s, s2, bs, us, b);
    BucketsFrame(s1.mem.szNext, s1.mem.szPrev, s2.mem.szNext, s2.mem.szPrev, s1.table, s1.lists, Classes(bs) - {b});
  }

  // Splitting a block

  /** What `allocMore` can rely on. */
  lemma SplitFacts(s: Store, bs: Blocks, us: Units, b: int, x: int)
    requires Consistent(s, bs, us) && b in bs && !bs[b].busy && b < x < bs[b].next && (x - b) % 32 == 0
    ensures Size(s.mem, b) > 0 && x % 32 == 0
    ensures b in Classes(bs) && Classes(bs)[b] == Bucket(Size(s.mem, b)) && Get(s.mem.addrNext, b) == bs[b].next
    ensures x != NULL && x !in Classes(bs) && Bucket(bs[b].next - x) < TABLE_SIZE
  {
    assert HeaderOk(s.mem, bs, b) == true && BlockOk(bs, us, b) == true;
    FreeBlockBucket(bs, us, b);
    SplitTiled(bs, us, b, x);
    Log2Order(bs[b].next - x, bs[b].next - b);
  }

  lemma SplitClasses(bs: Blocks, us: Units, b: int, m: int)
    requires Tiled(bs, us) && b in bs && !bs[b].busy && b < m < bs[b].next && m % 32 == 0
    ensures m !in bs
    ensures Classes(Split(bs, b, m, true)) == (Classes(bs) - {b})[m := Bucket(bs[b].next - m)]
  {
    SplitTiled(bs, us, b, m);
    assert BlockOk(bs, us, b) == true;
    if bs[b].next in bs { assert BlockOk(bs, us, bs[b].next) == true; }
  }

  /** The four address words that make x a block between b and n. */
  function PlaceBetween(m: Memory, b: int, x: int, n: int): Memory
  {
    m.(addrNext := m.addrNext[x := n][b := x], addrPrev := m.addrPrev[x := b][n := x])
  }

  /** Everything `allocMore` changed, from s to s4. */
  ghost predicate SplitDone(s: Store, s4: Store, bs: Blocks, us: Units, b: int, x: int)
  {
    && Consistent(s, bs, us) && b in bs && !bs[b].busy && b < x < bs[b].next && x % 32 == 0
    && OnlyLinks(s.(mem := PlaceBetween(s.mem, b, x, bs[b].next)), s4, Classes(bs)[b := 0], x)
    && Get(s4.mem.szNext, b) == MARKER
    && Listed(s4, (Classes(bs) - {b})[x := Bucket(bs[b].next - x)])
  }

  lemma SplitEncoded(s: Store, s4: Store, bs: Blocks, us: Units, b: int, x: int)
    requires SplitDone(s, s4, bs, us, b, x)
    ensures Encoded(s4.mem, Split(bs, b, x, true), us) == true
  {
    var bs' := Split(bs, b, x, true);
    var m2 := PlaceBetween(s.mem, b, x, bs[b].next);
    assert BlockOk(bs, us, b) == true;
    SplitTiled(bs, us, b, x);
    forall c | c in bs' ensures HeaderOk(s4.mem, bs', c) == true {
      if c != x {
        assert HeaderOk(s.mem, bs, c) == true && BlockOk(bs, us, c) == true;
        assert c in Classes(bs) || SameCell(m2, s4.mem, c) == true;
      }
    }
    forall u | u in us ensures SentinelOk(s4.mem, us, u) == true {
      assert SentinelOk(s.mem, us, u) == true && UnitOk(bs, us, u) == true;
      SentinelOutside(bs, us, b, u);
    }
  }

  lemma SplitConsistent(s: Store, s4: Store, bs: Blocks, us: Units, b: int, x: int)
    requires SplitDone(s, s4, bs, us, b, x)
    ensures Consistent(s4, Split(bs, b, x, true), us) == true
    ensures SameOutside(s.mem, s4.mem, Classes(bs).Keys + {x, bs[b].next}, 0, 0) == true
  {
    var m2 := PlaceBetween(s.mem, b, x, bs[b].next);
    SplitTiled(bs, us, b, x);
    SplitClasses(bs, us, b, x);
    SplitEncoded(s, s4, bs, us, b, x);
    forall a | a !in Classes(bs).Keys + {x, bs[b].next} ensures SameCell(s.mem, s4.mem, a) == true {
      assert SameCell(m2, s4.mem, a) == true;
    }
  }

  /** The steps of `allocMore` make up the change. */
  lemma SplitSteps(s: Store, s1: Store, s3: Store, bs: Blocks, us: Units, b: int, x: int)
    requires Consistent(s, bs, us) && b in bs && !bs[b].busy && b < x < bs[b].next && x % 32 == 0
    requires OnlyLinks(s, s1, Classes(bs), b)
    requires OnlyLinks(s1.(mem := PlaceBetween(s1.mem, b, x, bs[b].next)), s3, Classes(bs) - {b}, x)
    requires Listed(s3, (Classes(bs) - {b})[x := Bucket(bs[b].next - x)])
    ensures SplitDone(s, s3.(mem := SetSzNext(s3.mem, b, MARKER)), bs, us, b, x) == true
  {
    var m0, m2 := PlaceBetween(s.mem, b, x, bs[b].next), PlaceBetween(s1.mem, b, x, bs[b].next);
    var s4 := s3.(mem := SetSzNext(s3.mem, b, MARKER));
    SplitTiled(bs, us, b, x);
    forall a | a !in Classes(bs)[b := 0].Keys + {x} ensures SameCell(m0, s4.mem, a) == true {
      assert SameCell(s.mem, s1.mem, a) == true && SameCell(m2, s3.mem, a) == true;
    }
    BucketsFrame(s3.mem.szNext, s3.mem.szPrev, s4.mem.szNext, s4.mem.szPrev, s3.table, s3.lists,
                 (Classes(bs) - {b})[x := Bucket(bs[b].next - x)]);
  }

  // A new unit

  lemma ScrambleGet(f: map<int, int>, junk: map<int, int>, lo: int, hi: int, a: int)
    ensures !(lo <= a < hi) ==> Get(Scramble(f, junk, lo, hi), a) == Get(f, a)
  {
  }

  lemma ScrambleSame(m: Memory, junk: Memory, lo: int, hi: int, a: int)
    requires !(lo <= a < hi)
    ensures SameCell(m, ScrambleMemory(m, junk, lo, hi), a) == true
  {
    ScrambleGet(m.szNext, junk.szNext, lo, hi, a);
    ScrambleGet(m.szPrev, junk.szPrev, lo, hi, a);
    ScrambleGet(m.addrNext, junk.addrNext, lo, hi, a);
    ScrambleGet(m.addrPrev, junk.addrPrev, lo, hi, a);
  }

  /** Writing the headers of a new unit of a busy and a free block. */
  function NewUnitMemory(m1: Memory, u: int, size: int, end: int): Memory
  {
    var m2 := SetAddrPrev(SetAddrNext(SetAddrPrev(m1, u, NULL), u, u + size), u + size, u);
    SetSzNext(SetAddrNext(SetAddrNext(m2, u + size, end), end, NULL), u, MARKER)
  }

  lemma NewUnitHeaders(m: Memory, m1: Memory, u: int, size: int, end: int)
    requires 0 < size < end - u && SameOutside(m, m1, {}, u, end + 32)
    ensures var m2 := NewUnitMemory(m1, u, size, end);
            && Get(m2.szNext, u) == MARKER && Get(m2.addrNext, u) == u + size && Get(m2.addrPrev, u) == NULL
            && Get(m2.addrNext, u + size) == end && Get(m2.addrPrev, u + size) == u && Get(m2.addrNext, end) == NULL
            && SameOutside(m, m2, {}, u, end + 32)
  {
    forall a | !(u <= a < end + 32) ensures SameCell(m, NewUnitMemory(m1, u, size, end), a) == true {
      assert SameCell(m, m1, a) == true;
    }
  }

  /** A new unit disturbs no free list. */
  lemma NewUnitListed(s: Store, bs: Blocks, us: Units, m: Memory, u: int, size: int, end: int)
    requires Consistent(s, bs, us) && Fresh(us, u, end) && 0 < size <= end - u && SameOutside(s.mem, m, {}, u, end + 32)
    ensures Listed(s.(mem := m), Classes(bs)) == true && u !in Classes(bs) && u + size !in Classes(bs)
  {
    forall x | x in Classes(bs) ensures Agree(s.mem.szNext, m.szNext, x) && Agree(s.mem.szPrev, m.szPrev, x)
      && x != u && x != u + size {
      FreshOutside(bs, us, u, end, x);
      assert SameCell(s.mem, m, x) == true;
    }
    BucketsFrame(s.mem.szNext, s.mem.szPrev, m.szNext, m.szPrev, s.table, s.lists, Classes(bs));
  }

  lemma NewUnitClasses(bs: Blocks, us: Units, u: int, size: int, end: int)
    requires Tiled(bs, us) && Fresh(us, u, end) && 0 < size <= end - u && size % 32 == 0
    ensures Classes(NewUnit(bs, u, size, end)) ==
              if u + size == end then Classes(bs) else Classes(bs)[u + size := Bucket(end - u - size)]
  {
    if u in bs { FreshOutside(bs, us, u, end, u); }
    if u + size in bs { FreshOutside(bs, us, u, end, u + size); }
  }

  lemma NewUnitEncoded(m: Memory, m': Memory, bs: Blocks, us: Units, u: int, size: int, end: int)
    requires Tiled(bs, us) && Encoded(m, bs, us) && Fresh(us, u, end) && 0 < size <= end - u && size % 32 == 0
    requires SameOutside(m, m', Classes(bs).Keys, u, end + 32)
    requires forall b {:trigger SameAddr(m, m', b)} :: b in Classes(bs) ==> SameAddr(m, m', b)
    requires Get(m'.szNext, u) == MARKER && Get(m'.addrNext, u) == u + size && Get(m'.addrPrev, u) == NULL
    requires u + size < end ==> Get(m'.addrNext, u + size) == end && Get(m'.addrPrev, u + size) == u
    requires Get(m'.addrNext, end) == NULL
    ensures Encoded(m', NewUnit(bs, u, size, end), us[u := end]) == true
  {
    var bs', us' := NewUnit(bs, u, size, end), us[u := end];
    forall c | c in bs' ensures HeaderOk(m', bs', c) == true {
      if c in bs {
        assert HeaderOk(m, bs, c) == true;
        FreshOutside(bs, us, u, end, c);
        assert if c in Classes(bs) then SameAddr(m, m', c) == true else SameCell(m, m', c) == true;
      }
    }
    forall v | v in us' ensures SentinelOk(m', us', v) == true {
      if v != u {
        assert SentinelOk(m, us, v) == true && UnitOk(bs, us, v) == true;
        assert SameCell(m, m', us[v]) == true;
      }
    }
  }

  /** The state after the rest of the new unit was listed. */
  ghost predicate NewUnitDone(s: Store, s4: Store, bs: Blocks, us: Units, m: Memory, u: int, size: int, end: int)
  {
    && Consistent(s, bs, us) && Fresh(us, u, end) && end - u == UNIT_SPAN && 0 < size < UNIT_SPAN && size % 32 == 0
    && OnlyLinks(s.(mem := m), s4, Classes(bs), u + size)
    && Listed(s4, Classes(bs)[u + size := Bucket(end - u - size)])
  }

  lemma NewUnitConsistent(s: Store, m1: Memory, s4: Store, bs: Blocks, us: Units, u: int, size: int, end: int)
    requires SameOutside(s.mem, m1, {}, u, end + 32)
    requires NewUnitDone(s, s4, bs, us, NewUnitMemory(m1, u, size, end), u, size, end)
    ensures Consistent(s4, NewUnit(bs, u, size, end), us[u := end]) == true
    ensures SameOutside(s.mem, s4.mem, Classes(bs).Keys, u, end + 32) == true
  {
    var m2 := NewUnitMemory(m1, u, size, end);
    NewUnitHeaders(s.mem, m1, u, size, end);
    NewUnitListed(s, bs, us, m2, u, size, end);
    NewUnitFrame(s, s4, bs, us, m2, u, size, end);
    NewUnitTiled(bs, us, u, size, end);
    NewUnitClasses(bs, us, u, size, end);
    NewUnitEncoded(s.mem, s4.mem, bs, us, u, size, end);
  }

  lemma NewUnitFrame(s: Store, s4: Store, bs: Blocks, us: Units, m: Memory, u: int, size: int, end: int)
    requires NewUnitDone(s, s4, bs, us, m, u, size, end) && SameOutside(s.mem, m, {}, u, end + 32)
    requires u !in Classes(bs) && u + size !in Classes(bs)
    ensures SameOutside(s.mem, s4.mem, Classes(bs).Keys, u, end + 32) == true
    ensures forall b {:trigger SameAddr(s.mem, s4.mem, b)} :: b in Classes(bs) ==> SameAddr(s.mem, s4.mem, b)
    ensures Get(s4.mem.szNext, u) == Get(m.szNext, u)
  {
    forall a | a !in Classes(bs).Keys && !(u <= a < end + 32) ensures SameCell(s.mem, s4.mem, a) == true {
      assert SameCell(s.mem, m, a) == true && SameCell(m, s4.mem, a) == true;
    }
    forall b | b in Classes(bs) ensures SameAddr(s.mem, s4.mem, b) == true {
      FreshOutside(bs, us, u, end, b);
      assert SameCell(s.mem, m, b) == true;
    }
    assert SameCell(m, s4.mem, u) == true;
  }

  /** Writing the headers of a unit of a single block. */
  function HugeMemory(m1: Memory, u: int, end: int): Memory
  {
    SetSzNext(SetAddrNext(SetAddrNext(SetAddrPrev(m1, u, NULL), u, end), end, NULL), u, MARKER)
  }

  lemma HugeHeaders(m: Memory, m1: Memory, u: int, end: int)
    requires u < end && SameOutside(m, m1, {}, u, end + 32)
    ensures var m' := HugeMemory(m1, u, end);
            && Get(m'.szNext, u) == MARKER && Get(m'.addrNext, u) == end && Get(m'.addrPrev, u) == NULL
            && Get(m'.addrNext, end) == NULL && SameOutside(m, m', {}, u, end + 32)
  {
    forall a | !(u <= a < end + 32) ensures SameCell(m, HugeMemory(m1, u, end), a) == true {
      assert SameCell(m, m1, a) == true;
    }
  }

  /** A unit of a single busy block lists nothing. */
  lemma HugeConsistent(s: Store, m: Memory, bs: Blocks, us: Units, u: int, end: int)
    requires Consistent(s, bs, us) && Fresh(us, u, end) && (end - u) % 32 == 0
    requires SameOutside(s.mem, m, {}, u, end + 32)
    requires Get(m.szNext, u) == MARKER && Get(m.addrNext, u) == end && Get(m.addrPrev, u) == NULL
    requires Get(m.addrNext, end) == NULL
    ensures Consistent(s.(mem := m), NewUnit(bs, u, end - u, end), us[u := end]) == true
    ensures SameOutside(s.mem, m, Classes(bs).Keys, u, end + 32) == true
  {
    NewUnitListed(s, bs, us, m, u, end - u, end);
    NewUnitTiled(bs, us, u, end - u, end);
    NewUnitClasses(bs, us, u, end - u, end);
    forall b | b in Classes(bs) ensures SameAddr(s.mem, m, b) == true {
      FreshOutside(bs, us, u, end, b);
      assert SameCell(s.mem, m, b) == true;
    }
    NewUnitEncoded(s.mem, m, bs, us, u, end - u, end);
  }

  lemma UnitBucket(size: int)
    requires 0 < size <= UNIT_SPAN
    ensures Bucket(size) < TABLE_SIZE
  {
    Pow2Of21();
    Log2Below(size, 21);
  }

  // Freeing a block

  /** The free block that `free` unlinks because the freed range takes it in, or 0. */
  ghost function NextFree(bs: Blocks, b: int): int
    requires b in bs
  {
    if bs[b].next in bs && !bs[bs[b].next].busy then bs[b].next else NULL
  }

  lemma MergeClasses(bs: Blocks, us: Units, b: int)
    requires Tiled(bs, us) && b in bs && bs[b].busy && !Whole(bs, us, b)
    ensures Lo(bs, b) in bs
    ensures Classes(Merge(bs, Lo(bs, b), Hi(bs, b))) ==
              (Classes(bs) - {NextFree(bs, b)})[Lo(bs, b) := Bucket(Hi(bs, b) - Lo(bs, b))]
  {
    FreeRange(bs, us, b);
    NoBlockAtZero(bs, us);
    var r := Merge(bs, Lo(bs, b), Hi(bs, b));
    forall c ensures c in Classes(r) <==> c == Lo(bs, b) || (c in Classes(bs) && c != NextFree(bs, b)) {
      if c in bs { RemainsFree(bs, us, b, c); }
    }
    forall c | c in Classes(r) ensures Classes(r)[c] ==
      Bucket(if c == Lo(bs, b) then Hi(bs, b) - c else bs[c].next - c) {}
  }

  lemma RemainsFree(bs: Blocks, us: Units, b: int, c: int)
    requires Tiled(bs, us) && b in bs && bs[b].busy && !Whole(bs, us, b) && c in bs
    ensures Lo(bs, b) in bs && 0 !in bs
    ensures var r := Merge(bs, Lo(bs, b), Hi(bs, b));
            && (c in r && !r[c].busy <==> c == Lo(bs, b) || (!bs[c].busy && c != NextFree(bs, b)))
            && (c in r && c != Lo(bs, b) ==> r[c].next == bs[c].next)
  {
    FreeRange(bs, us, b);
    NoBlockAtZero(bs, us);
    assert BlockOk(bs, us, b) == true;
    var n := NextFree(bs, b);
    if n != NULL { assert BlockOk(bs, us, n) == true; }
    if Lo(bs, b) < c < Hi(bs, b) { Inside(bs, us, b, c); }
  }

  /** From m to m', the range from lo to hi became one block; nothing outside it changed. */
  ghost predicate Joined(m: Memory, m': Memory, bs: Blocks, lo: int, hi: int)
  {
    && (forall a {:trigger SameCell(m, m', a)} :: a != lo && a != hi && !(lo + 32 <= a < hi) ==> SameCell(m, m', a))
    && Agree(m.szNext, m'.szNext, lo) && Agree(m.szPrev, m'.szPrev, lo) && Agree(m.addrPrev, m'.addrPrev, lo)
    && Agree(m.szNext, m'.szNext, hi) && Agree(m.szPrev, m'.szPrev, hi) && Agree(m.addrNext, m'.addrNext, hi)
    && Get(m'.addrNext, lo) == hi
    && (hi in bs ==> Get(m'.addrPrev, hi) == lo)
  }

  /** A block of which nothing is in the freed range but perhaps its end. */
  lemma OutsideRange(bs: Blocks, us: Units, b: int, c: int)
    requires Tiled(bs, us) && b in bs && bs[b].busy && !Whole(bs, us, b)
    requires c in bs && c != b && c != NextFree(bs, b)
    ensures !(Lo(bs, b) < c < Hi(bs, b)) && c != NULL
  {
    NoBlockAtZero(bs, us);
    if Lo(bs, b) < c < Hi(bs, b) { Inside(bs, us, b, c); }
  }

  lemma JoinedListed(s: Store, m: Memory, bs: Blocks, us: Units, b: int, cls: map<int, nat>)
    requires Tiled(bs, us) && b in bs && bs[b].busy && !Whole(bs, us, b)
    requires Listed(s, cls) && Joined(s.mem, m, bs, Lo(bs, b), Hi(bs, b))
    requires cls.Keys <= Classes(bs).Keys - {NextFree(bs, b)}
    ensures Listed(s.(mem := m), cls) == true
  {
    forall x | x in cls ensures Agree(s.mem.szNext, m.szNext, x) && Agree(s.mem.szPrev, m.szPrev, x) {
      OutsideRange(bs, us, b, x);
      if x != Lo(bs, b) && x != Hi(bs, b) { assert SameCell(s.mem, m, x) == true; }
    }
    BucketsFrame(s.mem.szNext, s.mem.szPrev, m.szNext, m.szPrev, s.table, s.lists, cls);
  }

  /** All of `free` but the unit return: unlink the next block, join, list the result. */
  ghost predicate MergeDone(s: Store, s1: Store, m: Memory, s4: Store, bs: Blocks, us: Units, b: int)
  {
    && Consistent(s, bs, us) && b in bs && bs[b].busy && !Whole(bs, us, b)
    && OnlyLinks(s, s1, Classes(bs), NextFree(bs, b))
    && Joined(s1.mem, m, bs, Lo(bs, b), Hi(bs, b))
    && OnlyLinks(s1.(mem := m), s4, Classes(bs), Lo(bs, b))
    && Listed(s4, (Classes(bs) - {NextFree(bs, b)})[Lo(bs, b) := Bucket(Hi(bs, b) - Lo(bs, b))])
  }

  lemma MergeHeader(s: Store, s1: Store, m: Memory, s4: Store, bs: Blocks, us: Units, b: int, c: int)
    requires MergeDone(s, s1, m, s4, bs, us, b) && Lo(bs, b) in bs && c in Merge(bs, Lo(bs, b), Hi(bs, b))
    ensures HeaderOk(s4.mem, Merge(bs, Lo(bs, b), Hi(bs, b)), c) == true
  {
    var lo, hi := Lo(bs, b), Hi(bs, b);
    FreeRange(bs, us, b);
    assert HeaderOk(s.mem, bs, c) == true && BlockOk(bs, us, c) == true;
    if c != lo && c != hi { assert SameCell(s1.mem, m, c) == true; }
    if c !in Classes(bs) && c != lo {
      NoBlockAtZero(bs, us);
      assert SameCell(m, s4.mem, c) == true && SameCell(s.mem, s1.mem, c) == true;
    }
  }

  lemma MergeSentinel(s: Store, s1: Store, m: Memory, s4: Store, bs: Blocks, us: Units, b: int, u: int)
    requires MergeDone(s, s1, m, s4, bs, us, b) && u in us
    ensures SentinelOk(s4.mem, us, u) == true
  {
    FreeRange(bs, us, b);
    var lo, hi := Lo(bs, b), Hi(bs, b);
    assert SentinelOk(s.mem, us, u) == true && UnitOk(bs, us, u) == true;
    MergeTiled(bs, us, lo, hi);
    SentinelOutside(Merge(bs, lo, hi), us, lo, u);
    if us[u] != hi { assert SameCell(s1.mem, m, us[u]) == true; }
  }

  lemma MergeConsistent(s: Store, s1: Store, m: Memory, s4: Store, bs: Blocks, us: Units, b: int)
    requires MergeDone(s, s1, m, s4, bs, us, b)
    ensures bs[b].unit in us && Lo(bs, b) in bs && Consistent(s4, Merge(bs, Lo(bs, b), Hi(bs, b)), us) == true
    ensures SameOutside(s.mem, s4.mem, Classes(bs).Keys + {Lo(bs, b), Hi(bs, b), NextFree(bs, b)}, Lo(bs, b) + 32,
                        Hi(bs, b)) == true
  {
    var lo, hi := Lo(bs, b), Hi(bs, b);
    FreeRange(bs, us, b);
    MergeTiled(bs, us, lo, hi);
    MergeClasses(bs, us, b);
    var r := Merge(bs, lo, hi);
    forall c | c in r ensures HeaderOk(s4.mem, r, c) == true { MergeHeader(s, s1, m, s4, bs, us, b, c); }
    forall u | u in us ensures SentinelOk(s4.mem, us, u) == true { MergeSentinel(s, s1, m, s4, bs, us, b, u); }
    forall a | a !in Classes(bs).Keys + {lo, hi, NextFree(bs, b)} && !(lo + 32 <= a < hi)
      ensures SameCell(s.mem, s4.mem, a) == true {
      assert SameCell(s.mem, s1.mem, a) == true && SameCell(s1.mem, m, a) == true && SameCell(m, s4.mem, a) == true;
    }
  }

  // Returning a unit

  ghost function PrevFree(bs: Blocks, b: int): int
    requires b in bs
  {
    if Lo(bs, b) != b then Lo(bs, b) else NULL
  }

  lemma DropClasses(bs: Blocks, us: Units, b: int)
    requires Tiled(bs, us) && b in bs && bs[b].busy && Whole(bs, us, b)
    ensures Classes(DropUnit(bs, bs[b].unit)) == Classes(bs) - {PrevFree(bs, b), NextFree(bs, b)}
  {
    FreeRange(bs, us, b);
    NoBlockAtZero(bs, us);
    LoFacts(bs, us, b);
    var u := bs[b].unit;
    assert BlockOk(bs, us, b) == true;
    forall c | c in Classes(bs) ensures bs[c].unit == u <==> c == PrevFree(bs, b) || c == NextFree(bs, b) {
      assert BlockOk(bs, us, c) == true;
      if bs[c].unit == u && c != Lo(bs, b) { Inside(bs, us, b, c); }
    }
  }

  lemma DropConsistent(s: Store, s1: Store, bs: Blocks, us: Units, b: int)
    requires Consistent(s, bs, us) && b in bs && bs[b].busy && Whole(bs, us, b)
    requires s1.mem.addrNext == s.mem.addrNext && s1.mem.addrPrev == s.mem.addrPrev
    requires SameOutside(s.mem, s1.mem, Classes(bs).Keys + {NULL}, 0, 0)
    requires Listed(s1, Classes(bs) - {PrevFree(bs, b), NextFree(bs, b)})
    ensures Consistent(s1, DropUnit(bs, bs[b].unit), us - {bs[b].unit}) == true
  {
    var u := bs[b].unit;
    DropClasses(bs, us, b);
    DropUnitTiled(bs, us, u);
    NoBlockAtZero(bs, us);
    var r, us' := DropUnit(bs, u), us - {u};
    forall c | c in r ensures HeaderOk(s1.mem, r, c) == true {
      assert HeaderOk(s.mem, bs, c) == true && (c in Classes(bs) || SameCell(s.mem, s1.mem, c) == true);
    }
    forall v | v in us' ensures SentinelOk(s1.mem, us', v) == true { assert SentinelOk(s.mem, us, v) == true; }
  }

  /** What the words that `free` reads say about the blocks around the freed one. */
  lemma FreeReads(s: Store, bs: Blocks, us: Units, b: int)
    requires Consistent(s, bs, us) && b in bs && bs[b].busy
    ensures var m, u, p, n := s.mem, bs[b].unit, bs[b].prev, bs[b].next;
            && 0 < b && u in us && Get(m.addrNext, b) == n && Get(m.addrPrev, b) == p
            && (p == NULL <==> b == u)
            && (p != NULL ==> p in bs && (Get(m.szNext, p) != MARKER <==> !bs[p].busy)
                              && (Get(m.addrPrev, p) == NULL <==> p == u) && bs[p].next == b)
            && (if n in bs then Get(m.addrNext, n) == bs[n].next > n > 0 else n == us[u] && Get(m.addrNext, n) == NULL)
            && (n in bs ==> n != us[u] && (Get(m.szNext, n) != MARKER <==> !bs[n].busy)
                            && (Get(m.addrNext, bs[n].next) == NULL <==> bs[n].next == us[u]))
  {
    var u, p, n := bs[b].unit, bs[b].prev, bs[b].next;
    assert HeaderOk(s.mem, bs, b) == true && BlockOk(bs, us, b) == true;
    assert SentinelOk(s.mem, us, u) == true && UnitOk(bs, us, u) == true;
    NoBlockAtZero(bs, us);
    if p != NULL {
      assert HeaderOk(s.mem, bs, p) == true && BlockOk(bs, us, p) == true;
      if !bs[p].busy { FreeNotMarked(s, bs, us, p); }
    }
    if n in bs { NextReads(s, bs, us, b); }
  }

  lemma NextReads(s: Store, bs: Blocks, us: Units, b: int)
    requires Consistent(s, bs, us) && b in bs && bs[b].next in bs
    ensures var m, n := s.mem, bs[b].next;
            && bs[b].unit in us && Get(m.addrNext, n) == bs[n].next > n > 0
            && (Get(m.szNext, n) != MARKER <==> !bs[n].busy)
            && (Get(m.addrNext, bs[n].next) == NULL <==> bs[n].next == us[bs[b].unit])
  {
    var u, n := bs[b].unit, bs[b].next;
    assert BlockOk(bs, us, b) == true && BlockOk(bs, us, n) == true;
    assert UnitOk(bs, us, u) == true && SentinelOk(s.mem, us, u) == true;
    assert HeaderOk(s.mem, bs, n) == true;
    if !bs[n].busy { FreeNotMarked(s, bs, us, n); }
    if bs[n].next in bs {
      assert HeaderOk(s.mem, bs, bs[n].next) == true && BlockOk(bs, us, bs[n].next) == true;
    }
  }

  // Releasing the pages inside a free block

  function AlignLo(a: int): int { a / 4096 * 4096 }
  function AlignHi(a: int): int { (a + 4095) / 4096 * 4096 }

  /** Memory after `freeRamPages` of a range, if there is one: its contents are lost. */
  function Released(m: Memory, junk: Memory, lo: int, hi: int): Memory
  {
    if lo < hi then ScrambleMemory(m, junk, lo, hi) else m
  }

  lemma ReleasedSame(m: Memory, junk: Memory, lo: int, hi: int)
    ensures SameOutside(m, Released(m, junk, lo, hi), {}, lo, hi) == true
  {
    forall a | !(lo <= a < hi) ensures SameCell(m, Released(m, junk, lo, hi), a) == true {
      if lo < hi { ScrambleSame(m, junk, lo, hi, a); }
    }
  }

  /** The pages released when a range becomes free lie inside it, behind its header. */
  ghost predicate Safe(base: int, end: int, lo: int, hi: int)
  {
    base % 4096 == 0 && end % 4096 == 0 && (base < end ==> lo + HEADER <= base && end <= hi)
  }

  lemma JoinedAfter(m: Memory, r: Memory, base: int, end: int, m': Memory, bs: Blocks, lo: int, hi: int)
    requires Safe(base, end, lo, hi) && lo < hi && SameOutside(m, r, {}, base, end)
    requires m'.szNext == r.szNext && m'.szPrev == r.szPrev
    requires m'.addrNext == r.addrNext[lo := hi] || (m'.addrNext == r.addrNext && Get(m.addrNext, lo) == hi)
    requires m'.addrPrev == r.addrPrev[hi := lo]
             || (m'.addrPrev == r.addrPrev && (hi in bs ==> Get(m.addrPrev, hi) == lo))
    ensures Joined(m, m', bs, lo, hi) == true
  {
    assert SameCell(m, r, lo) == true && SameCell(m, r, hi) == true;
    forall a | a != lo && a != hi && !(lo + 32 <= a < hi) ensures SameCell(m, m', a) == true {
      assert SameCell(m, r, a) == true;
    }
  }

  /** What freeing block b must lead to: the unit is returned if b was its last busy block;
      otherwise b and its free neighbours become one free block, and only pages inside it were
      released. */
  ghost predicate Freed(s: Store, bs: Blocks, us: Units, s': Store, bs': Blocks, us': Units, b: int,
                        returned: int, base: int, end: int)
    requires b in bs
  {
    && Consistent(s', bs', us')
    && bs[b].unit in us && Lo(bs, b) in bs
    && (Whole(bs, us, b) ==>
          && returned == bs[b].unit && bs' == DropUnit(bs, returned) && us' == us - {returned}
          && base == end && SameOutside(s.mem, s'.mem, Classes(bs).Keys + {NULL}, 0, 0))
    && (!Whole(bs, us, b) ==>
          && returned == NULL && bs' == Merge(bs, Lo(bs, b), Hi(bs, b)) && us' == us
          && Safe(base, end, Lo(bs, b), Hi(bs, b))
          && SameOutside(s.mem, s'.mem, Classes(bs).Keys + {Lo(bs, b), Hi(bs, b), NextFree(bs, b)}, Lo(bs, b) + 32,
                         Hi(bs, b)))
  }

  /** After the pages were released and the addresses written, the lists still stand and the
      joined block can be listed. */
  lemma MergeReady(s: Store, s1: Store, r: Memory, base: int, end: int, m': Memory, bs: Blocks, us: Units, b: int)
    requires Consistent(s, bs, us) && b in bs && bs[b].busy && !Whole(bs, us, b)
    requires OnlyLinks(s, s1, Classes(bs), NextFree(bs, b)) && Listed(s1, Classes(bs) - {NextFree(bs, b)})
    requires Safe(base, end, Lo(bs, b), Hi(bs, b)) && SameOutside(s1.mem, r, {}, base, end)
    requires m'.szNext == r.szNext && m'.szPrev == r.szPrev
    requires m'.addrNext == r.addrNext[Lo(bs, b) := Hi(bs, b)]
             || (m'.addrNext == r.addrNext && Get(s1.mem.addrNext, Lo(bs, b)) == Hi(bs, b))
    requires m'.addrPrev == r.addrPrev[Hi(bs, b) := Lo(bs, b)]
             || (m'.addrPrev == r.addrPrev && (Hi(bs, b) in bs ==> Get(s1.mem.addrPrev, Hi(bs, b)) == Lo(bs, b)))
    ensures Joined(s1.mem, m', bs, Lo(bs, b), Hi(bs, b)) == true
    ensures Listed(s1.(mem := m'), Classes(bs) - {NextFree(bs, b)}) == true
    ensures Lo(bs, b) != NULL && Size(m', Lo(bs, b)) == Hi(bs, b) - Lo(bs, b) > 0
    ensures Bucket(Hi(bs, b) - Lo(bs, b)) < TABLE_SIZE
  {
    FreeRange(bs, us, b);
    NoBlockAtZero(bs, us);
    JoinedAfter(s1.mem, r, base, end, m', bs, Lo(bs, b), Hi(bs, b));
    JoinedListed(s1, m', bs, us, b, Classes(bs) - {NextFree(bs, b)});
    UnitBucket(Hi(bs, b) - Lo(bs, b));
  }

  lemma AloneFacts(s: Store, bs: Blocks, us: Units, b: int)
    requires Consistent(s, bs, us) && b in bs && bs[b].busy && !Whole(bs, us, b)
    requires PrevFree(bs, b) == NULL == NextFree(bs, b)
    ensures Lo(bs, b) == b && Hi(bs, b) == bs[b].next && Get(s.mem.addrNext, b) == bs[b].next
    ensures bs[b].next in bs ==> Get(s.mem.addrPrev, bs[b].next) == b
    ensures OnlyLinks(s, s, Classes(bs), NULL) == true && Classes(bs) - {NULL} == Classes(bs) && b !in Classes(bs)
  {
    NoBlockAtZero(bs, us);
    LoFacts(bs, us, b);
    assert HeaderOk(s.mem, bs, b) == true && BlockOk(bs, us, b) == true;
    if bs[b].next in bs {
      assert HeaderOk(s.mem, bs, bs[b].next) == true && UnitOk(bs, us, bs[b].unit) == true;
    }
  }

  /** The same facts when the previous block is free. */
  lemma PrevFacts(s: Store, s1: Store, bs: Blocks, us: Units, b: int)
    requires Consistent(s, bs, us) && b in bs && bs[b].busy && PrevFree(bs, b) != NULL
    requires s1.mem.addrNext == s.mem.addrNext && s1.mem.addrPrev == s.mem.addrPrev
    ensures Lo(bs, b) == bs[b].prev < b && Get(s1.mem.addrPrev, b) == bs[b].prev
    ensures Get(s1.mem.addrNext, b) == bs[b].next
    ensures Lo(bs, b) in Classes(bs) && Lo(bs, b) != NextFree(bs, b) && Lo(bs, b) != NULL
    ensures Size(s.mem, Lo(bs, b)) > 0 && Classes(bs)[Lo(bs, b)] == Bucket(Size(s.mem, Lo(bs, b)))
    ensures NextFree(bs, b) != NULL ==>
              && NextFree(bs, b) in Classes(bs) && Size(s.mem, bs[b].next) > 0
              && Classes(bs)[bs[b].next] == Bucket(Size(s.mem, bs[b].next))
              && Hi(bs, b) == bs[b].next + Size(s1.mem, bs[b].next)
    ensures NextFree(bs, b) == NULL ==> Hi(bs, b) == bs[b].next && Classes(bs) - {NULL} == Classes(bs)
  {
    NoBlockAtZero(bs, us);
    LoFacts(bs, us, b);
    assert HeaderOk(s.mem, bs, b) == true && BlockOk(bs, us, b) == true;
    assert HeaderOk(s.mem, bs, bs[b].prev) == true && BlockOk(bs, us, bs[b].prev) == true;
    if bs[b].next in bs { assert HeaderOk(s.mem, bs, bs[b].next) == true && BlockOk(bs, us, bs[b].next) == true; }
  }

  lemma NextFacts(s: Store, s1: Store, bs: Blocks, us: Units, b: int)
    requires Consistent(s, bs, us) && b in bs && bs[b].busy && PrevFree(bs, b) == NULL && NextFree(bs, b) != NULL
    requires s1.mem.addrNext == s.mem.addrNext && s1.mem.addrPrev == s.mem.addrPrev
    ensures Lo(bs, b) == b && b !in Classes(bs) && Get(s1.mem.addrNext, b) == bs[b].next
    ensures bs[b].next in Classes(bs) && Size(s1.mem, bs[b].next) > 0
    ensures Classes(bs)[bs[b].next] == Bucket(Size(s1.mem, bs[b].next))
    ensures Hi(bs, b) == bs[b].next + Size(s1.mem, bs[b].next)
  {
    NoBlockAtZero(bs, us);
    LoFacts(bs, us, b);
    assert HeaderOk(s.mem, bs, b) == true && BlockOk(bs, us, b) == true;
    assert HeaderOk(s.mem, bs, bs[b].next) == true && BlockOk(bs, us, bs[b].next) == true;
  }

  // Choosing a block

  function Extent(bs: Blocks, b: int): int { if b in bs then bs[b].next - b else 0 }

  /** r is the smallest block of the list that is large enough. */
  ghost predicate BestOf(bs: Blocks, list: seq<int>, size: int, r: int)
  {
    && r in list && Extent(bs, r) >= size
    && (forall i :: 0 <= i < |list| && Extent(bs, list[i]) >= size ==> Extent(bs, r) <= Extent(bs, list[i]))
  }

  ghost predicate NoneFits(bs: Blocks, list: seq<int>, size: int)
  {
    forall i :: 0 <= i < |list| ==> Extent(bs, list[i]) < size
  }

  /** The part of a list that the first search stage looks at. */
  function Scanned(list: seq<int>): seq<int>
  {
    if |list| <= MAX_ITERATIONS then list else list[..MAX_ITERATIONS]
  }

  /** Best fit among the scanned blocks of the size's own bucket; else the first block of the
      next bucket that has one; else none. */
  ghost predicate Chosen(bs: Blocks, lists: seq<seq<int>>, size: int, r: int)
    requires |lists| == TABLE_SIZE && Bucket(size) < TABLE_SIZE
  {
    var own := Scanned(lists[Bucket(size)]);
    || BestOf(bs, own, size, r)
    || (NoneFits(bs, own, size)
        && exists k :: Bucket(size) < k < TABLE_SIZE && lists[k] != [] && r == lists[k][0]
                       && forall j :: Bucket(size) < j < k ==> lists[j] == [])
    || (NoneFits(bs, own, size) && r == NULL && forall j :: Bucket(size) < j < TABLE_SIZE ==> lists[j] == [])
  }

  /** A block of a higher bucket is larger than the size. */
  lemma HigherBucketFits(s: Store, bs: Blocks, us: Units, size: int, k: nat)
    requires Consistent(s, bs, us) && size > 0 && Bucket(size) < k < TABLE_SIZE && s.lists[k] != []
    ensures s.table[k] == s.lists[k][0] != NULL && s.lists[k][0] in bs && !bs[s.lists[k][0]].busy
    ensures Extent(bs, s.lists[k][0]) > size
  {
    var cls := Classes(bs);
    assert BucketOk(s.mem.szNext, s.mem.szPrev, s.table, s.lists, cls, k) == true;
    assert NodeOk(s.mem.szNext, s.mem.szPrev, s.lists[k], 0) == true;
    var r := s.lists[k][0];
    assert r in cls && cls[r] == k;
    FreeBlockBucket(bs, us, r);
    Log2Order(size, bs[r].next - r);
  }

  lemma ListNode(s: Store, bs: Blocks, us: Units, k: nat, i: nat)
    requires Consistent(s, bs, us) && k < TABLE_SIZE && i < |s.lists[k]|
    ensures s.lists[k][i] in bs && !bs[s.lists[k][i]].busy && s.lists[k][i] != NULL
    ensures Size(s.mem, s.lists[k][i]) == Extent(bs, s.lists[k][i])
    ensures Get(s.mem.szNext, s.lists[k][i]) == if i + 1 < |s.lists[k]| then s.lists[k][i + 1] else NULL
  {
    var cls := Classes(bs);
    assert BucketOk(s.mem.szNext, s.mem.szPrev, s.table, s.lists, cls, k) == true;
    assert NodeOk(s.mem.szNext, s.mem.szPrev, s.lists[k], i) == true;
    assert HeaderOk(s.mem, bs, s.lists[k][i]) == true;
  }

  /** An exact fit among the scanned blocks cannot be beaten. */
  lemma ExactIsBest(bs: Blocks, list: seq<int>, i: nat, size: int)
    requires i < |list| && i < MAX_ITERATIONS && Extent(bs, list[i]) == size
    ensures BestOf(bs, Scanned(list), size, list[i]) == true
  {
    assert Scanned(list)[i] == list[i];
  }

  // Payloads

  /** The memory that the owner of block c may use holds the same in m and m'. */
  ghost predicate PayloadSame(m: Memory, m': Memory, bs: Blocks, c: int)
    requires c in bs
  {
    forall a {:trigger SameCell(m, m', a)} :: c + HEADER <= a < bs[c].next ==> SameCell(m, m', a)
  }

  /** An address where a block or sentinel starts is in nobody's payload. */
  ghost predicate IsHeader(bs: Blocks, us: Units, h: int)
  {
    h in bs || h == NULL || exists u :: u in us && h == us[u]
  }

  lemma HeaderNotInPayload(bs: Blocks, us: Units, c: int, h: int)
    requires Tiled(bs, us) && c in bs && IsHeader(bs, us, h)
    ensures !(c < h < bs[c].next)
  {
    assert BlockOk(bs, us, c) == true;
    if h in bs {
      assert Disjoint(bs, c, h) == true;
    } else if h != NULL {
      var u :| u in us && h == us[u];
      SentinelOutside(bs, us, c, u);
    }
  }

  /** Writes to headers and to addresses outside a block keep its payload. */
  lemma PayloadKept(m: Memory, m': Memory, bs: Blocks, us: Units, H: set<int>, lo: int, hi: int, c: int)
    requires Tiled(bs, us) && c in bs && SameOutside(m, m', H, lo, hi)
    requires forall h :: h in H ==> IsHeader(bs, us, h) || h <= c || bs[c].next <= h
    requires hi <= c + HEADER || bs[c].next <= lo || hi <= lo
    ensures PayloadSame(m, m', bs, c) == true
  {
    forall a | c + HEADER <= a < bs[c].next ensures SameCell(m, m', a) == true {
      if a in H && IsHeader(bs, us, a) { HeaderNotInPayload(bs, us, c, a); }
    }
  }

  // What an allocation does to the blocks

  /** The size of the block for a request: header included, rounded up to 32. */
  function Rounded(size: int): int { (size + 63) % WORD / 32 * 32 }

  const WORD := 0x1_0000_0000_0000_0000

  /** HEAP_MEM_REGION_LIMIT. */
  predicate IsHuge(size: int) { Rounded(size) >= 0x100000 }

  /** It leaves room for the request behind a header exactly if the sum does not wrap around. */
  lemma RoundingWraps(size: int)
    requires 0 <= size < WORD
    ensures Rounded(size) % 32 == 0 && 0 <= Rounded(size) < WORD
    ensures Rounded(size) - HEADER >= size <==> size + 63 < WORD
  {
  }

  /** Block b is new in the hands of a caller; every other block in a caller's hands stays as it
      is, and no further one appears. */
  ghost predicate Handed(bs: Blocks, bs': Blocks, b: int)
  {
    && b in bs' && bs'[b].busy && !(b in bs && bs[b].busy)
    && (forall c {:trigger c in bs'} :: c != b ==>
          ((c in bs' && bs'[c].busy) <==> (c in bs && bs[c].busy))
            && (c in bs && bs[c].busy ==> bs'[c].next == bs[c].next))
  }

  lemma TakeHanded(bs: Blocks, us: Units, b: int)
    requires Tiled(bs, us) && b in bs && !bs[b].busy
    ensures Handed(bs, bs[b := bs[b].(busy := true)], b) == true
  {
  }

  lemma SplitHanded(bs: Blocks, us: Units, b: int, x: int)
    requires Tiled(bs, us) && b in bs && !bs[b].busy && b < x < bs[b].next && x % 32 == 0
    ensures Handed(bs, Split(bs, b, x, true), b) == true && Split(bs, b, x, true)[b].next == x
  {
    SplitTiled(bs, us, b, x);
    assert BlockOk(bs, us, b) == true;
  }

  lemma NewUnitHanded(bs: Blocks, us: Units, u: int, size: int, end: int)
    requires Tiled(bs, us) && Fresh(us, u, end) && 0 < size <= end - u && size % 32 == 0
    ensures Handed(bs, NewUnit(bs, u, size, end), u) == true && NewUnit(bs, u, size, end)[u].next == u + size
  {
    if u in bs { FreshOutside(bs, us, u, end, u); }
    if u + size in bs { FreshOutside(bs, us, u, end, u + size); }
  }

  /** Every payload in a caller's hands in bs holds the same in m and m'. */
  ghost predicate PayloadsSame(m: Memory, m': Memory, bs: Blocks)
  {
    forall c {:trigger PayloadSame(m, m', bs, c)} :: c in bs && bs[c].busy ==> PayloadSame(m, m', bs, c)
  }

  lemma TakeKeepsPayloads(m: Memory, m': Memory, bs: Blocks, us: Units)
    requires Tiled(bs, us) && SameOutside(m, m', Classes(bs).Keys, 0, 0)
    ensures PayloadsSame(m, m', bs) == true
  {
    forall c | c in bs && bs[c].busy ensures PayloadSame(m, m', bs, c) == true {
      PayloadKept(m, m', bs, us, Classes(bs).Keys, 0, 0, c);
    }
  }

  lemma SplitKeepsPayloads(m: Memory, m': Memory, bs: Blocks, us: Units, b: int, x: int)
    requires Tiled(bs, us) && b in bs && !bs[b].busy && b < x < bs[b].next
    requires SameOutside(m, m', Classes(bs).Keys + {x, bs[b].next}, 0, 0)
    ensures PayloadsSame(m, m', bs) == true
  {
    assert BlockOk(bs, us, b) == true;
    forall c | c in bs && bs[c].busy ensures PayloadSame(m, m', bs, c) == true {
      assert Disjoint(bs, b, c) == true && Disjoint(bs, c, b) == true;
      PayloadKept(m, m', bs, us, Classes(bs).Keys + {x, bs[b].next}, 0, 0, c);
    }
  }

  lemma NewUnitKeepsPayloads(m: Memory, m': Memory, bs: Blocks, us: Units, u: int, end: int)
    requires Tiled(bs, us) && Fresh(us, u, end) && SameOutside(m, m', Classes(bs).Keys, u, end + 32)
    ensures PayloadsSame(m, m', bs) == true
  {
    forall c | c in bs && bs[c].busy ensures PayloadSame(m, m', bs, c) == true {
      FreshOutside(bs, us, u, end, c);
      PayloadKept(m, m', bs, us, Classes(bs).Keys, u, end + 32, c);
    }
  }

  /** `calcVirtualMemoryBeetween` for a returned unit. */
  ghost function Refund(us: Units, returned: int): int
  {
    if returned in us then us[returned] - returned + HEADER else 0
  }

  // Accounting

  /** Units of the standard length. */
  ghost function Standard(us: Units): set<int>
  {
    set u | u in us && us[u] - u == UNIT_SPAN
  }

  /** What an operation that adds or returns at most one unit does to the number of standard
      units times their size is what it does to `m_virtualMemorySize`. */
  lemma UnitAdded(us: Units, u: int, end: int)
    requires u !in us
    ensures |Standard(us[u := end])| == |Standard(us)| + if end - u == UNIT_SPAN then 1 else 0
  {
    if end - u == UNIT_SPAN {
      assert Standard(us[u := end]) == Standard(us) + {u};
    } else {
      assert Standard(us[u := end]) == Standard(us);
    }
  }

  lemma UnitRemoved(us: Units, u: int)
    requires u in us
    ensures |Standard(us)| == |Standard(us - {u})| + if us[u] - u == UNIT_SPAN then 1 else 0
    ensures us[u] - u == UNIT_SPAN ==> Refund(us, u) == 0x101000
  {
    if us[u] - u == UNIT_SPAN {
      assert Standard(us) == Standard(us - {u}) + {u};
    } else {
      assert Standard(us) == Standard(us - {u});
    }
  }

  class Heap {
    var mem: Memory
    const freeListTable: array<int>
    var virtualMemorySize: int

    ghost var blocks: Blocks
    ghost var units: Units
    ghost var lists: seq<seq<int>>

    /** What huge allocations have added to the size counter, less what their release took off. */
    ghost var hugeBalance: int

    ghost predicate Accounted()
      reads this
    {
      virtualMemorySize == 0x101000 * |Standard(units)| + hugeBalance
    }

    /** There never was a huge request. */
    ghost predicate StandardOnly()
      reads this
    {
      hugeBalance == 0 && forall u :: u in units ==> units[u] - u == UNIT_SPAN
    }

    ghost function Snapshot(): Store
      reads this, freeListTable
    {
      Store(mem, freeListTable[..], lists)
    }

    ghost predicate Valid()
      reads this, freeListTable
    {
      Consistent(Snapshot(), blocks, units)
    }

    constructor ()
      ensures Valid() && blocks == map[] && units == map[] && virtualMemorySize == 0 && fresh(freeListTable)
      ensures Accounted() && StandardOnly()
    {
      mem := Memory(map[], map[], map[], map[]);
      freeListTable := new int[TABLE_SIZE](i => NULL);
      virtualMemorySize, hugeBalance := 0, 0;
      blocks, units, lists := map[], map[], seq(TABLE_SIZE, i => []);
      new;
      assert Classes(map[]) == map[];
    }

    /** Unlinks a free block from its bucket. */
    method DeleteMemRegion(region: int, tableIdx: nat, ghost cls: map<int, nat>)
      requires Listed(Snapshot(), cls) && region in cls && cls[region] == tableIdx
      modifies this`mem, this`lists, freeListTable
      ensures Listed(Snapshot(), cls - {region})
      ensures OnlyLinks(old(Snapshot()), Snapshot(), cls, region)
    {
      ghost var nx, pv, heads, ls := mem.szNext, mem.szPrev, freeListTable[..], lists;
      ghost var i := Position(nx, pv, heads, ls, cls, region);
      Delete(nx, pv, heads, ls, cls, region);
      DeleteTouches(nx, pv, heads, ls, cls, region, i);
      if region == freeListTable[tableIdx] {
        freeListTable[tableIdx] := Get(mem.szNext, region);
      } else {
        var regSzPrev := Get(mem.szPrev, region);
        var regSzNext := Get(mem.szNext, region);
        mem := SetSzNext(mem, regSzPrev, regSzNext);
        if regSzNext != NULL {
          mem := SetSzPrev(mem, regSzNext, regSzPrev);
        }
      }
      lists := lists[tableIdx := Without(lists[tableIdx], region)];
      assert freeListTable[..] == heads[tableIdx := DeleteHead(nx, heads[tableIdx], region)];
    }

    /** Puts a block at the front of the bucket for its size. */
    method AddMemRegion(region: int, ghost cls: map<int, nat>)
      requires Listed(Snapshot(), cls) && region != NULL && region !in cls
      requires Size(mem, region) > 0 && Bucket(Size(mem, region)) < TABLE_SIZE
      modifies this`mem, this`lists, freeListTable
      ensures Listed(Snapshot(), cls[region := Bucket(old(Size(mem, region)))])
      ensures OnlyLinks(old(Snapshot()), Snapshot(), cls, region)
    {
      var tblIndex := Bucket(Size(mem, region));
      ghost var nx, pv, heads, ls := mem.szNext, mem.szPrev, freeListTable[..], lists;
      Insert(nx, pv, heads, ls, cls, region, tblIndex);
      assert BucketOk(nx, pv, heads, ls, cls, tblIndex) == true;
      var hdr := freeListTable[tblIndex];
      mem := SetSzNext(mem, region, hdr);
      if hdr != NULL {
        mem := SetSzPrev(mem, hdr, region);
      }
      freeListTable[tblIndex] := region;
      lists := lists[tblIndex := [region] + lists[tblIndex]];
      assert freeListTable[..] == heads[tblIndex := region];
    }

    /** Takes a free block as it is. */
    method AllocEqual(region: int) returns (ptr: int)
      requires Valid() && region in blocks && !blocks[region].busy
      modifies this`mem, this`blocks, this`lists, freeListTable
      ensures Valid() && ptr == region + HEADER
      ensures blocks == old(blocks)[region := old(blocks)[region].(busy := true)]
      ensures SameOutside(old(mem), mem, Classes(old(blocks)).Keys, 0, 0)
    {
      ghost var s := Snapshot();
      FreeBlockBucket(blocks, units, region);
      assert HeaderOk(mem, blocks, region) == true;
      DeleteMemRegion(region, Bucket(Size(mem, region)), Classes(blocks));
      TakeConsistent(s, Snapshot(), blocks, units, region);
      assert Classes(blocks).Keys + {region} == Classes(blocks).Keys;
      mem := SetSzNext(mem, region, MARKER);
      blocks := blocks[region := blocks[region].(busy := true)];
      ptr := region + HEADER;
    }

    /** Takes the front part of a larger free block and lists the rest. */
    method AllocMore(region: int, size: int) returns (ptr: int)
      requires Valid() && region in blocks && !blocks[region].busy
      requires 0 < size < blocks[region].next - region && size % 32 == 0
      modifies this`mem, this`blocks, this`lists, freeListTable
      ensures Valid() && ptr == region + HEADER
      ensures blocks == Split(old(blocks), region, region + size, true)
      ensures SameOutside(old(mem), mem, Classes(old(blocks)).Keys + {region + size, old(blocks)[region].next}, 0, 0)
    {
      ghost var s, cls := Snapshot(), Classes(blocks);
      var freeRegion := region + size;
      SplitFacts(s, blocks, units, region, freeRegion);
      var regNext := Get(mem.addrNext, region);
      DeleteMemRegion(region, Bucket(Size(mem, region)), cls);
      ghost var s1 := Snapshot();
      mem := SetAddrPrev(mem, freeRegion, region);
      mem := SetAddrNext(mem, freeRegion, regNext);
      mem := SetAddrNext(mem, region, freeRegion);
      mem := SetAddrPrev(mem, regNext, freeRegion);
      assert Snapshot() == s1.(mem := PlaceBetween(s1.mem, region, freeRegion, regNext));
      AddMemRegion(freeRegion, cls - {region});
      SplitSteps(s, s1, Snapshot(), blocks, units, region, freeRegion);
      mem := SetSzNext(mem, region, MARKER);
      SplitConsistent(s, Snapshot(), blocks, units, region, freeRegion);
      blocks := Split(blocks, region, freeRegion, true);
      ptr := region + HEADER;
    }

    /** Memory from lo up to hi is handed over by the virtual memory manager and holds junk. */
    method TakeMemory(lo: int, hi: int, junk: Memory)
      modifies this`mem
      ensures SameOutside(old(mem), mem, {}, lo, hi)
    {
      forall a | !(lo <= a < hi) ensures SameCell(mem, ScrambleMemory(mem, junk, lo, hi), a) == true {
        ScrambleSame(mem, junk, lo, hi, a);
      }
      mem := ScrambleMemory(mem, junk, lo, hi);
    }

    /** Gets a unit from the virtual memory manager: `region` is what it returned, 0 for failure,
        and `junk` what the unit's memory holds. Takes the front part and lists the rest. */
    method AllocNew(size: int, region: int, junk: Memory) returns (ptr: int)
      requires Valid() && 0 < size < UNIT_SPAN && size % 32 == 0
      requires region != NULL ==> Fresh(units, region, region + UNIT_SPAN)
      modifies this`mem, this`virtualMemorySize, this`blocks, this`units, this`lists, freeListTable
      ensures Valid()
      ensures region == NULL ==> ptr == NULL && unchanged(this) && unchanged(freeListTable)
      ensures region != NULL ==>
                && ptr == region + HEADER
                && blocks == NewUnit(old(blocks), region, size, region + UNIT_SPAN)
                && units == old(units)[region := region + UNIT_SPAN]
                && virtualMemorySize == old(virtualMemorySize) + 0x101000
                && SameOutside(old(mem), mem, Classes(old(blocks)).Keys, region, region + 0x101000)
    {
      if region == NULL {
        return NULL;
      }
      ghost var s := Snapshot();
      var freeRegion := region + size;
      var nullRegion := region + 0x101000 - HEADER;
      virtualMemorySize := virtualMemorySize + 0x101000;
      TakeMemory(region, region + 0x101000, junk);
      ghost var m1 := mem;
      mem := SetAddrPrev(mem, region, NULL);
      mem := SetAddrNext(mem, region, freeRegion);
      mem := SetAddrPrev(mem, freeRegion, region);
      mem := SetAddrNext(mem, freeRegion, nullRegion);
      mem := SetAddrNext(mem, nullRegion, NULL);
      mem := SetSzNext(mem, region, MARKER);
      NewUnitHeaders(s.mem, m1, region, size, nullRegion);
      NewUnitListed(s, blocks, units, mem, region, size, nullRegion);
      UnitBucket(nullRegion - freeRegion);
      AddMemRegion(freeRegion, Classes(blocks));
      NewUnitConsistent(s, m1, Snapshot(), blocks, units, region, size, nullRegion);
      blocks, units := NewUnit(blocks, region, size, nullRegion), units[region := nullRegion];
      ptr := region + HEADER;
    }

    /** Moves a free block whose size changed to the right bucket. */
    method UpdateMemRegion(region: int, oldTableIdx: nat, ghost cls: map<int, nat>)
      requires Listed(Snapshot(), cls) && region != NULL && region in cls && cls[region] == oldTableIdx
      requires Size(mem, region) > 0 && Bucket(Size(mem, region)) < TABLE_SIZE
      modifies this`mem, this`lists, freeListTable
      ensures Listed(Snapshot(), cls[region := Bucket(old(Size(mem, region)))])
      ensures OnlyLinks(old(Snapshot()), Snapshot(), cls, region)
    {
      var tblIndex := Bucket(Size(mem, region));
      if tblIndex != oldTableIdx {
        ghost var s := Snapshot();
        DeleteMemRegion(region, oldTableIdx, cls);
        ghost var s1 := Snapshot();
        AddMemRegion(region, cls - {region});
        forall a | a !in cls.Keys + {region} ensures SameCell(s.mem, mem, a) == true {
          assert SameCell(s.mem, s1.mem, a) == true && SameCell(s1.mem, mem, a) == true;
        }
        assert (cls - {region})[region := tblIndex] == cls[region := tblIndex];
      } else {
        assert cls[region := tblIndex] == cls;
      }
    }

    /** Neighbours on both sides stay: release the whole pages of the payload. */
    method CleanMemRegion(ptr: int, region: int, junk: Memory) returns (fpBase: int, fpEnd: int)
      modifies this`mem
      ensures var next := Get(old(mem.addrNext), region);
              && Safe(fpBase, fpEnd, ptr - HEADER, next) && fpBase < ptr + 4096 && next < fpEnd + 4096
      ensures mem == Released(old(mem), junk, fpBase, fpEnd)
    {
      fpBase := AlignHi(ptr);
      fpEnd := AlignLo(Get(mem.addrNext, region));
      mem := Released(mem, junk, fpBase, fpEnd);
    }

    /** The next block is taken in: a page that straddles its header can go too. */
    method CleanMemRegionUN(ptr: int, region: int, junk: Memory) returns (fpBase: int, fpEnd: int)
      modifies this`mem
      ensures var next := Get(old(mem.addrNext), region);
              Size(old(mem), next) >= 0 ==>
                && Safe(fpBase, fpEnd, ptr - HEADER, next + Size(old(mem), next))
                && fpBase < ptr + 4096 && next < fpEnd + 4096
      ensures mem == Released(old(mem), junk, fpBase, fpEnd)
    {
      var next := Get(mem.addrNext, region);
      fpBase := AlignHi(ptr);
      var unionAdd := if Size(mem, next) < 0xFFF then Size(mem, next) else 0xFFF;
      fpEnd := AlignLo(next + unionAdd);
      mem := Released(mem, junk, fpBase, fpEnd);
    }

    /** Both neighbours are taken in. */
    method CleanMemRegionUNP(ptr: int, region: int, junk: Memory) returns (fpBase: int, fpEnd: int)
      requires Get(mem.addrPrev, region) < region && ptr == region + HEADER
      modifies this`mem
      ensures var next, prev := Get(old(mem.addrNext), region), Get(old(mem.addrPrev), region);
              Size(old(mem), next) >= 0 ==>
                && Safe(fpBase, fpEnd, prev, next + Size(old(mem), next))
                && fpBase < ptr + 4096 && next < fpEnd + 4096
      ensures mem == Released(old(mem), junk, fpBase, fpEnd)
    {
      var next := Get(mem.addrNext, region);
      fpBase := AlignLo(ptr);
      if fpBase < Get(mem.addrPrev, region) + HEADER {
        fpBase := fpBase + 4096;
      }
      var unionAdd := if Size(mem, next) < 0xFFF then Size(mem, next) else 0xFFF;
      fpEnd := AlignLo(next + unionAdd);
      mem := Released(mem, junk, fpBase, fpEnd);
    }

    /** The previous block is taken in. */
    method CleanMemRegionUP(ptr: int, region: int, junk: Memory) returns (fpBase: int, fpEnd: int)
      requires Get(mem.addrPrev, region) < region && ptr == region + HEADER
      modifies this`mem
      ensures var next, prev := Get(old(mem.addrNext), region), Get(old(mem.addrPrev), region);
              && Safe(fpBase, fpEnd, prev, next) && fpBase < ptr + 4096 && next < fpEnd + 4096
      ensures mem == Released(old(mem), junk, fpBase, fpEnd)
    {
      fpBase := AlignLo(ptr);
      if fpBase < Get(mem.addrPrev, region) + HEADER {
        fpBase := fpBase + 4096;
      }
      fpEnd := AlignLo(Get(mem.addrNext, region));
      mem := Released(mem, junk, fpBase, fpEnd);
    }

    /** Neither neighbour is free. */
    method FreeAlone(ptr: int, junk: Memory) returns (fpBase: int, fpEnd: int)
      requires Valid() && ptr - HEADER in blocks && blocks[ptr - HEADER].busy && !Whole(blocks, units, ptr - HEADER)
      requires PrevFree(blocks, ptr - HEADER) == NULL == NextFree(blocks, ptr - HEADER)
      modifies this`mem, this`blocks, this`lists, freeListTable
      ensures Freed(old(Snapshot()), old(blocks), old(units), Snapshot(), blocks, units, ptr - HEADER, NULL, fpBase,
                    fpEnd)
    {
      var region := ptr - HEADER;
      ghost var s, cls := Snapshot(), Classes(blocks);
      AloneFacts(s, blocks, units, region);
      fpBase, fpEnd := CleanMemRegion(ptr, region, junk);
      ReleasedSame(s.mem, junk, fpBase, fpEnd);
      MergeReady(s, s, mem, fpBase, fpEnd, mem, blocks, units, region);
      ghost var m := mem;
      AddMemRegion(region, cls);
      MergeConsistent(s, s, m, Snapshot(), blocks, units, region);
      blocks := Merge(blocks, Lo(blocks, region), Hi(blocks, region));
    }

    /** The next block is free and was unlinked; s is the state before that. */
    method JoinNext(ptr: int, junk: Memory, ghost s: Store) returns (fpBase: int, fpEnd: int)
      requires ptr - HEADER in blocks && blocks[ptr - HEADER].busy && !Whole(blocks, units, ptr - HEADER)
      requires PrevFree(blocks, ptr - HEADER) == NULL != NextFree(blocks, ptr - HEADER)
      requires Consistent(s, blocks, units)
      requires OnlyLinks(s, Snapshot(), Classes(blocks), NextFree(blocks, ptr - HEADER))
      requires Listed(Snapshot(), Classes(blocks) - {NextFree(blocks, ptr - HEADER)})
      modifies this`mem, this`blocks, this`lists, freeListTable
      ensures Freed(s, old(blocks), old(units), Snapshot(), blocks, units, ptr - HEADER, NULL, fpBase, fpEnd)
    {
      var region := ptr - HEADER;
      ghost var s1, cls := Snapshot(), Classes(blocks);
      NextFacts(s, s1, blocks, units, region);
      var regNextNext := Get(mem.addrNext, Get(mem.addrNext, region));
      fpBase, fpEnd := CleanMemRegionUN(ptr, region, junk);
      ghost var r := mem;
      ReleasedSame(s1.mem, junk, fpBase, fpEnd);
      mem := SetAddrNext(mem, region, regNextNext);
      mem := SetAddrPrev(mem, regNextNext, region);
      MergeReady(s, s1, r, fpBase, fpEnd, mem, blocks, units, region);
      ghost var m := mem;
      AddMemRegion(region, cls - {NextFree(blocks, region)});
      LinksWiden(s1.(mem := m), Snapshot(), cls, NextFree(blocks, region), region);
      MergeConsistent(s, s1, m, Snapshot(), blocks, units, region);
      blocks := Merge(blocks, Lo(blocks, region), Hi(blocks, region));
    }

    /** The previous block is free, and the next one is not. */
    method JoinPrev(ptr: int, junk: Memory) returns (fpBase: int, fpEnd: int)
      requires Valid() && ptr - HEADER in blocks && blocks[ptr - HEADER].busy && !Whole(blocks, units, ptr - HEADER)
      requires PrevFree(blocks, ptr - HEADER) != NULL == NextFree(blocks, ptr - HEADER)
      modifies this`mem, this`blocks, this`lists, freeListTable
      ensures Freed(old(Snapshot()), old(blocks), old(units), Snapshot(), blocks, units, ptr - HEADER, NULL, fpBase,
                    fpEnd)
    {
      var region := ptr - HEADER;
      ghost var s, cls := Snapshot(), Classes(blocks);
      PrevFacts(s, s, blocks, units, region);
      var regPrev, regNext := Get(mem.addrPrev, region), Get(mem.addrNext, region);
      var oldTblIndex := Bucket(Size(mem, regPrev));
      var inner := Get(mem.addrNext, regNext) != NULL;
      fpBase, fpEnd := CleanMemRegionUP(ptr, region, junk);
      ghost var r := mem;
      ReleasedSame(s.mem, junk, fpBase, fpEnd);
      mem := SetAddrNext(mem, regPrev, regNext);
      FreeReads(s, blocks, units, region);
      if inner {
        mem := SetAddrPrev(mem, regNext, regPrev);
      }
      MergeReady(s, s, r, fpBase, fpEnd, mem, blocks, units, region);
      ghost var m := mem;
      UpdateMemRegion(regPrev, oldTblIndex, cls);
      MergeConsistent(s, s, m, Snapshot(), blocks, units, region);
      blocks := Merge(blocks, Lo(blocks, region), Hi(blocks, region));
    }

    /** Both neighbours are free, and the next one was unlinked; s is the state before that. */
    method JoinBoth(ptr: int, oldTblIndex: nat, junk: Memory, ghost s: Store) returns (fpBase: int, fpEnd: int)
      requires ptr - HEADER in blocks && blocks[ptr - HEADER].busy && !Whole(blocks, units, ptr - HEADER)
      requires PrevFree(blocks, ptr - HEADER) != NULL && NextFree(blocks, ptr - HEADER) != NULL
      requires Consistent(s, blocks, units) && oldTblIndex == Bucket(Size(s.mem, Lo(blocks, ptr - HEADER)))
      requires OnlyLinks(s, Snapshot(), Classes(blocks), NextFree(blocks, ptr - HEADER))
      requires Listed(Snapshot(), Classes(blocks) - {NextFree(blocks, ptr - HEADER)})
      modifies this`mem, this`blocks, this`lists, freeListTable
      ensures Freed(s, old(blocks), old(units), Snapshot(), blocks, units, ptr - HEADER, NULL, fpBase, fpEnd)
    {
      var region := ptr - HEADER;
      ghost var s1, cls := Snapshot(), Classes(blocks);
      PrevFacts(s, s1, blocks, units, region);
      var regPrev := Get(mem.addrPrev, region);
      var regNextNext := Get(mem.addrNext, Get(mem.addrNext, region));
      fpBase, fpEnd := CleanMemRegionUNP(ptr, region, junk);
      ghost var r := mem;
      ReleasedSame(s1.mem, junk, fpBase, fpEnd);
      mem := SetAddrNext(mem, regPrev, regNextNext);
      mem := SetAddrPrev(mem, regNextNext, regPrev);
      MergeReady(s, s1, r, fpBase, fpEnd, mem, blocks, units, region);
      ghost var m := mem;
      UpdateMemRegion(regPrev, oldTblIndex, cls - {NextFree(blocks, region)});
      LinksWiden(s1.(mem := m), Snapshot(), cls, NextFree(blocks, region), regPrev);
      MergeConsistent(s, s1, m, Snapshot(), blocks, units, region);
      blocks := Merge(blocks, Lo(blocks, region), Hi(blocks, region));
    }

    /** The part of `free` for a block that follows a free block. */
    method FreeAfterFree(ptr: int, junk: Memory) returns (returned: int, fpBase: int, fpEnd: int)
      requires Valid() && ptr - HEADER in blocks && blocks[ptr - HEADER].busy && PrevFree(blocks, ptr - HEADER) != NULL
      modifies this`mem, this`virtualMemorySize, this`blocks, this`units, this`lists, freeListTable
      ensures Freed(old(Snapshot()), old(blocks), old(units), Snapshot(), blocks, units, ptr - HEADER, returned,
                    fpBase, fpEnd)
      ensures virtualMemorySize == old(virtualMemorySize) - Refund(old(units), returned)
    {
      var region := ptr - HEADER;
      ghost var s, bs, us, cls := Snapshot(), blocks, units, Classes(blocks);
      FreeReads(s, bs, us, region);
      PrevFacts(s, s, bs, us, region);
      NoBlockAtZero(bs, us);
      var regNext, regPrev := Get(mem.addrNext, region), Get(mem.addrPrev, region);
      var regNextNext := Get(mem.addrNext, regNext);
      var oldTblIndex := Bucket(Size(mem, regPrev));
      returned, fpBase, fpEnd := NULL, 0, 0;
      if regNextNext != NULL {
        if Get(mem.szNext, regNext) != MARKER {
          DeleteMemRegion(regNext, Bucket(Size(mem, regNext)), cls);
          if Get(mem.addrPrev, regPrev) == NULL && Get(mem.addrNext, regNextNext) == NULL {
            virtualMemorySize := virtualMemorySize - (regNextNext - regPrev + HEADER);
            returned := DropBoth(region, oldTblIndex, s);
          } else {
            fpBase, fpEnd := JoinBoth(ptr, oldTblIndex, junk, s);
          }
        } else {
          fpBase, fpEnd := JoinPrev(ptr, junk);
        }
      } else {
        if Get(mem.addrPrev, regPrev) == NULL {
          virtualMemorySize := virtualMemorySize - (regNext - regPrev + HEADER);
          returned := DropBoth(region, oldTblIndex, s);
        } else {
          fpBase, fpEnd := JoinPrev(ptr, junk);
        }
      }
    }

    /** Unlinks the free block before the last busy block of a unit and returns the unit. */
    method DropBoth(region: int, oldTblIndex: nat, ghost s: Store) returns (returned: int)
      requires region in blocks && blocks[region].busy && Whole(blocks, units, region)
      requires PrevFree(blocks, region) != NULL && Consistent(s, blocks, units)
      requires oldTblIndex == Bucket(Size(s.mem, Lo(blocks, region)))
      requires OnlyLinks(s, Snapshot(), Classes(blocks), NextFree(blocks, region))
      requires Listed(Snapshot(), Classes(blocks) - {NextFree(blocks, region)})
      modifies this`mem, this`blocks, this`units, this`lists, freeListTable
      ensures Freed(s, old(blocks), old(units), Snapshot(), blocks, units, region, returned, 0, 0)
    {
      ghost var s1, cls := Snapshot(), Classes(blocks);
      PrevFacts(s, s1, blocks, units, region);
      FreeRange(blocks, units, region);
      returned := Get(mem.addrPrev, region);
      DeleteMemRegion(returned, oldTblIndex, cls - {NextFree(blocks, region)});
      forall a | a !in cls.Keys + {NULL} ensures SameCell(s.mem, mem, a) == true {
        assert SameCell(s.mem, s1.mem, a) == true && SameCell(s1.mem, mem, a) == true;
      }
      assert cls - {NextFree(blocks, region)} - {returned} == cls - {returned, NextFree(blocks, region)};
      DropConsistent(s, Snapshot(), blocks, units, region);
      blocks, units := DropUnit(blocks, returned), units - {returned};
    }

    /** The part of `free` for a block that does not follow a free block. */
    method FreeAfterBusy(ptr: int, junk: Memory) returns (returned: int, fpBase: int, fpEnd: int)
      requires Valid() && ptr - HEADER in blocks && blocks[ptr - HEADER].busy && PrevFree(blocks, ptr - HEADER) == NULL
      modifies this`mem, this`virtualMemorySize, this`blocks, this`units, this`lists, freeListTable
      ensures Freed(old(Snapshot()), old(blocks), old(units), Snapshot(), blocks, units, ptr - HEADER, returned,
                    fpBase, fpEnd)
      ensures virtualMemorySize == old(virtualMemorySize) - Refund(old(units), returned)
    {
      var region := ptr - HEADER;
      ghost var s, bs, us, cls := Snapshot(), blocks, units, Classes(blocks);
      FreeReads(s, bs, us, region);
      LoFacts(bs, us, region);
      NoBlockAtZero(bs, us);
      assert cls - {NULL} == cls;
      var regNext, regPrev := Get(mem.addrNext, region), Get(mem.addrPrev, region);
      var regNextNext := Get(mem.addrNext, regNext);
      returned, fpBase, fpEnd := NULL, 0, 0;
      if regNextNext != NULL {
        if Get(mem.szNext, regNext) != MARKER {
          NextFacts(s, s, bs, us, region);
          DeleteMemRegion(regNext, Bucket(Size(mem, regNext)), cls);
          if regPrev == NULL && Get(mem.addrNext, regNextNext) == NULL {
            virtualMemorySize := virtualMemorySize - (regNextNext - region + HEADER);
            returned := DropOne(region, s);
          } else {
            fpBase, fpEnd := JoinNext(ptr, junk, s);
          }
        } else {
          fpBase, fpEnd := FreeAlone(ptr, junk);
        }
      } else {
        if regPrev == NULL {
          virtualMemorySize := virtualMemorySize - (regNext - region + HEADER);
          returned := DropOne(region, s);
        } else {
          fpBase, fpEnd := FreeAlone(ptr, junk);
        }
      }
    }

    /** Returns the unit whose first block is its last busy one. */
    method DropOne(region: int, ghost s: Store) returns (returned: int)
      requires region in blocks && blocks[region].busy && Whole(blocks, units, region)
      requires PrevFree(blocks, region) == NULL && Consistent(s, blocks, units)
      requires OnlyLinks(s, Snapshot(), Classes(blocks), NextFree(blocks, region))
      requires Listed(Snapshot(), Classes(blocks) - {NextFree(blocks, region)})
      modifies this`blocks, this`units
      ensures Freed(s, old(blocks), old(units), Snapshot(), blocks, units, region, returned, 0, 0)
    {
      ghost var cls := Classes(blocks);
      FreeRange(blocks, units, region);
      NoBlockAtZero(blocks, units);
      returned := region;
      forall a | a !in cls.Keys + {NULL} ensures SameCell(s.mem, mem, a) == true {
        assert SameCell(s.mem, Snapshot().mem, a) == true;
      }
      assert cls - {NULL, NextFree(blocks, region)} == cls - {NextFree(blocks, region)};
      DropConsistent(s, Snapshot(), blocks, units, region);
      blocks, units := DropUnit(blocks, returned), units - {returned};
    }

    /** `free`, except that the virtual memory manager's part is left to the caller: `returned`
        is the unit it gets back, 0 if none, and fpBase up to fpEnd the pages it gets back, whose
        contents become `junk`. */
    method Free(ptr: int, junk: Memory) returns (returned: int, fpBase: int, fpEnd: int)
      requires Valid() && Accounted() && ptr - HEADER in blocks && blocks[ptr - HEADER].busy
      modifies this`mem, this`virtualMemorySize, this`blocks, this`units, this`lists, this`hugeBalance, freeListTable
      ensures Valid() && Accounted()
      ensures hugeBalance == old(hugeBalance) -
                if returned in old(units) && returned !in Standard(old(units)) then Refund(old(units), returned) else 0
      ensures Freed(old(Snapshot()), old(blocks), old(units), Snapshot(), blocks, units, ptr - HEADER, returned,
                    fpBase, fpEnd)
      ensures virtualMemorySize == old(virtualMemorySize) - Refund(old(units), returned)
      ensures old(StandardOnly()) ==> StandardOnly()
    {
      var region := ptr - HEADER;
      FreeReads(Snapshot(), blocks, units, region);
      LoFacts(blocks, units, region);
      NoBlockAtZero(blocks, units);
      var regPrev := Get(mem.addrPrev, region);
      if regPrev != NULL && Get(mem.szNext, regPrev) != MARKER {
        returned, fpBase, fpEnd := FreeAfterFree(ptr, junk);
      } else {
        returned, fpBase, fpEnd := FreeAfterBusy(ptr, junk);
      }
      if returned != NULL {
        UnitRemoved(old(units), returned);
        hugeBalance := hugeBalance - if returned in Standard(old(units)) then 0 else Refund(old(units), returned);
      }
    }

    /** The search of `alloc`. */
    method FindRegion(size: int) returns (region: int)
      requires Valid() && 0 < size && Bucket(size) < TABLE_SIZE
      ensures Valid() && |lists| == TABLE_SIZE
      ensures Chosen(blocks, lists, size, region)
      ensures region != NULL ==> region in blocks && !blocks[region].busy && Extent(blocks, region) >= size
    {
      region := FindInBucket(size);
      if region != NULL {
        return;
      }
      var idx := Bucket(size) + 1;
      while idx < TABLE_SIZE
        invariant Bucket(size) < idx <= TABLE_SIZE && region == NULL
        invariant forall j :: Bucket(size) < j < idx ==> lists[j] == []
      {
        region := freeListTable[idx];
        assert BucketOk(mem.szNext, mem.szPrev, freeListTable[..], lists, Classes(blocks), idx) == true;
        if lists[idx] != [] { HigherBucketFits(Snapshot(), blocks, units, size, idx); }
        if region != NULL {
          return;
        }
        idx := idx + 1;
      }
    }

    /** The first stage: best fit among at most 32 blocks of the size's own bucket. */
    method FindInBucket(size: int) returns (minRegion: int)
      requires Valid() && 0 < size && Bucket(size) < TABLE_SIZE
      ensures |lists| == TABLE_SIZE
      ensures minRegion == NULL ==> NoneFits(blocks, Scanned(lists[Bucket(size)]), size)
      ensures minRegion != NULL ==> BestOf(blocks, Scanned(lists[Bucket(size)]), size, minRegion)
                                    && minRegion in blocks && !blocks[minRegion].busy
    {
      var tblIndex := Bucket(size);
      ghost var list := lists[tblIndex];
      assert BucketOk(mem.szNext, mem.szPrev, freeListTable[..], lists, Classes(blocks), tblIndex) == true;
      var cutListRegion := freeListTable[tblIndex];
      minRegion := NULL;
      var minDelta := 0;
      var cnt := 0;
      while cutListRegion != NULL && cnt < MAX_ITERATIONS
        invariant 0 <= cnt <= |list| && cnt <= MAX_ITERATIONS
        invariant cutListRegion == if cnt < |list| then list[cnt] else NULL
        invariant minRegion == NULL ==> NoneFits(blocks, list[..cnt], size)
        invariant minRegion != NULL ==>
                    && BestOf(blocks, list[..cnt], size, minRegion) && minRegion in blocks && !blocks[minRegion].busy
                    && minDelta == Extent(blocks, minRegion) - size
        decreases MAX_ITERATIONS - cnt
      {
        ListNode(Snapshot(), blocks, units, tblIndex, cnt);
        var regSize := Size(mem, cutListRegion);
        assert list[..cnt + 1] == list[..cnt] + [cutListRegion];
        if regSize >= size {
          var delta := regSize - size;
          if minRegion == NULL || delta < minDelta {
            minRegion := cutListRegion;
            if delta == 0 {
              ExactIsBest(blocks, list, cnt, size);
              return;
            }
            minDelta := delta;
          }
        }
        cnt := cnt + 1;
        cutListRegion := Get(mem.szNext, cutListRegion);
      }
      if cnt < |list| { ListNode(Snapshot(), blocks, units, tblIndex, cnt); }
      assert list[..cnt] == Scanned(list);
    }

    /** A unit of its own for a large request. What the virtual memory manager returns is not looked at: if it is null,
        the first write to the header faults, and `ok` is false. */
    method AllocHuge(size: int, region: int, junk: Memory) returns (ok: bool, ptr: int)
      requires Valid() && 0 < size && size % 32 == 0 && (region != NULL ==> Fresh(units, region, region + size))
      modifies this`mem, this`virtualMemorySize, this`blocks, this`units
      ensures ok <==> region != NULL
      ensures Valid() && (ok ==> virtualMemorySize == old(virtualMemorySize) + AlignHi(size + HEADER))
      ensures !ok ==> mem == old(mem) && blocks == old(blocks) && units == old(units)
      ensures ok ==>
                && ptr == region + HEADER && blocks == NewUnit(old(blocks), region, size, region + size)
                && units == old(units)[region := region + size]
                && SameOutside(old(mem), mem, Classes(old(blocks)).Keys, region, region + size + 32)
    {
      ghost var s := Snapshot();
      virtualMemorySize := virtualMemorySize + AlignHi(size + HEADER);
      if region == NULL {
        return false, NULL;
      }
      TakeMemory(region, region + size + HEADER, junk);
      ghost var m1 := mem;
      var nullRegion := region + size;
      mem := SetAddrPrev(mem, region, NULL);
      mem := SetAddrNext(mem, region, nullRegion);
      mem := SetAddrNext(mem, nullRegion, NULL);
      mem := SetSzNext(mem, region, MARKER);
      HugeHeaders(s.mem, m1, region, nullRegion);
      HugeConsistent(s, mem, blocks, units, region, nullRegion);
      blocks, units := NewUnit(blocks, region, size, nullRegion), units[region := nullRegion];
      ok, ptr := true, region + HEADER;
    }

    /** A huge block is handed out, and accounted for. */
    method HandHuge(n: int, unit: int, junk: Memory) returns (ok: bool, ptr: int)
      requires Valid() == true && Accounted() && 0x100000 <= n && n % 32 == 0
      requires unit != NULL ==> Fresh(units, unit, unit + n)
      modifies this`mem, this`virtualMemorySize, this`blocks, this`units, this`hugeBalance
      ensures ok <==> unit != NULL
      ensures Valid() == true && (ok ==> virtualMemorySize == old(virtualMemorySize) + AlignHi(n + HEADER))
      ensures !ok ==> mem == old(mem) && blocks == old(blocks) && units == old(units)
      ensures ok ==>
                && Accounted() && ptr == unit + HEADER
                && Handed(old(blocks), blocks, unit) && blocks[unit].next == unit + n
                && PayloadsSame(old(mem), mem, old(blocks)) && units == old(units)[unit := unit + n]
                && hugeBalance == old(hugeBalance) + if n != UNIT_SPAN then AlignHi(n + HEADER) else 0
    {
      ok, ptr := AllocHuge(n, unit, junk);
      if !ok { return; }
      NewUnitHanded(old(blocks), old(units), unit, n, unit + n);
      NewUnitKeepsPayloads(old(mem), mem, old(blocks), old(units), unit, unit + n);
      UnitAdded(old(units), unit, unit + n);
      hugeBalance := hugeBalance + if n == UNIT_SPAN then 0 else AlignHi(n + HEADER);
    }

    /** The first block of a new unit is handed out, if there is a new unit. */
    method HandNew(n: int, unit: int, junk: Memory) returns (ptr: int)
      requires Valid() == true && Accounted() && 0 < n < UNIT_SPAN && n % 32 == 0
      requires unit != NULL ==> Fresh(units, unit, unit + UNIT_SPAN)
      modifies this`mem, this`virtualMemorySize, this`blocks, this`units, this`lists, freeListTable
      ensures Valid() == true && Accounted()
      ensures unit == NULL ==> ptr == NULL && blocks == old(blocks) && units == old(units)
                               && virtualMemorySize == old(virtualMemorySize)
      ensures unit != NULL ==>
                && ptr == unit + HEADER && Handed(old(blocks), blocks, unit) && blocks[unit].next == unit + n
                && PayloadsSame(old(mem), mem, old(blocks)) && units == old(units)[unit := unit + UNIT_SPAN]
                && virtualMemorySize == old(virtualMemorySize) + 0x101000
    {
      ptr := AllocNew(n, unit, junk);
      if unit != NULL {
        NewUnitHanded(old(blocks), old(units), unit, n, unit + UNIT_SPAN);
        NewUnitKeepsPayloads(old(mem), mem, old(blocks), old(units), unit, unit + UNIT_SPAN);
        UnitAdded(old(units), unit, unit + UNIT_SPAN);
      }
    }

    /** `alloc`. `unit` is the address the virtual memory manager returns if it is asked, 0 for failure, and `junk` what
        memory it hands out holds. `ok` is false if a huge request got no memory, which `allocHuge` does not survive. */
    method Alloc(size: int, unit: int, junk: Memory) returns (ok: bool, ptr: int, ghost chosen: int)
      requires Valid() && Accounted() && 0 <= size < WORD && (size > 0 ==> Rounded(size) > 0)
      requires unit != NULL ==> Fresh(units, unit, unit + if IsHuge(size) then Rounded(size) else UNIT_SPAN)
      modifies this`mem, this`virtualMemorySize, this`blocks, this`units, this`lists, this`hugeBalance, freeListTable
      ensures ok <==> !IsHuge(size) || unit != NULL
      ensures Valid() && (ok ==> Accounted())
      ensures ok ==> hugeBalance == old(hugeBalance) +
                       if IsHuge(size) && Rounded(size) != UNIT_SPAN then AlignHi(Rounded(size) + HEADER) else 0
      ensures !ok ==> mem == old(mem) && blocks == old(blocks) && units == old(units)
      ensures ok && ptr == NULL ==>
                blocks == old(blocks) && units == old(units) && virtualMemorySize == old(virtualMemorySize)
      ensures ok ==> (ptr == NULL <==> size == 0 || (!IsHuge(size) && chosen == NULL && unit == NULL))
      ensures ok && ptr != NULL ==>
                && Handed(old(blocks), blocks, ptr - HEADER)
                && blocks[ptr - HEADER].next == ptr - HEADER + Rounded(size)
                && (blocks[ptr - HEADER].next - ptr >= size <==> size + 63 < WORD)
                && PayloadsSame(old(mem), mem, old(blocks))
      ensures 0 < size && !IsHuge(size) ==>
                && Bucket(Rounded(size)) < TABLE_SIZE == |old(lists)|
                && Chosen(old(blocks), old(lists), Rounded(size), chosen)
                && (chosen != NULL ==> ptr == chosen + HEADER && units == old(units)
                                       && virtualMemorySize == old(virtualMemorySize))
                && (chosen == NULL && unit != NULL ==>
                      && ptr == unit + HEADER && units == old(units)[unit := unit + UNIT_SPAN]
                      && virtualMemorySize == old(virtualMemorySize) + 0x101000)
      ensures old(StandardOnly()) && !IsHuge(size) ==> StandardOnly()
      ensures ok && IsHuge(size) ==>
                && ptr == unit + HEADER && units == old(units)[unit := unit + Rounded(size)]
                && virtualMemorySize == old(virtualMemorySize) + AlignHi(Rounded(size) + HEADER)
    {
      RoundingWraps(size);
      ok, chosen := true, NULL;
      if size == 0 {
        return true, NULL, NULL;
      }
      var n := Rounded(size);
      if n >= 0x100000 {
        ok, ptr := HandHuge(n, unit, junk);
        return;
      }
      UnitBucket(n);
      var region := FindRegion(n);
      chosen := region;
      if region == NULL {
        ptr := HandNew(n, unit, junk);
      } else {
        ptr := AllocIn(region, n);
      }
    }

    /** Takes all of a free block that fits, or its front part. */
    method AllocIn(region: int, size: int) returns (ptr: int)
      requires Valid() == true && region in blocks && !blocks[region].busy
      requires 0 < size <= Extent(blocks, region) && size % 32 == 0
      modifies this`mem, this`blocks, this`lists, freeListTable
      ensures Valid() == true && ptr == region + HEADER && ptr != NULL
      ensures Handed(old(blocks), blocks, region) && blocks[region].next == region + size
      ensures PayloadsSame(old(mem), mem, old(blocks))
    {
      assert HeaderOk(mem, blocks, region) == true && BlockOk(blocks, units, region) == true;
      if Size(mem, region) == size {
        ptr := AllocEqual(region);
        TakeHanded(old(blocks), units, region);
        TakeKeepsPayloads(old(mem), mem, old(blocks), units);
      } else {
        ptr := AllocMore(region, size);
        SplitHanded(old(blocks), units, region, region + size);
        SplitKeepsPayloads(old(mem), mem, old(blocks), units, region, region + size);
      }
    }
  }
}
