/** What the heap's invariant means for its callers. */
module HeapGuarantees {
  import opened FreeLists
  import opened HeapBlocks
  import opened Heap

  /** Live allocations are 32-byte aligned and do not overlap, headers included. */
  lemma LiveBlocksDisjoint(s: Store, bs: Blocks, us: Units, b: int, c: int)
    requires Consistent(s, bs, us) && b in bs && c in bs && bs[b].busy && bs[c].busy && b != c
    ensures (b + HEADER) % 32 == 0
    ensures b + HEADER <= bs[b].next
    ensures bs[b].next <= c || bs[c].next <= b
  {
    assert BlockOk(bs, us, b) == true;
    assert Disjoint(bs, b, c) == true && Disjoint(bs, c, b) == true;
  }

  /** The blocks tile a unit: every address up to the sentinel is in exactly one block, found
      by following `m_addrNext` from the unit's first header. */
  lemma {:induction false} UnitCovered(s: Store, bs: Blocks, us: Units, u: int, b: int, x: int) returns (c: int)
    requires Consistent(s, bs, us) && u in us && b in bs && bs[b].unit == u && b <= x < us[u]
    ensures c in bs && bs[c].unit == u && c <= x < bs[c].next
    ensures forall d :: d in bs && d <= x < bs[d].next ==> d == c
    decreases us[u] - b
  {
    assert BlockOk(bs, us, b) == true && HeaderOk(s.mem, bs, b) == true;
    if x < bs[b].next {
      c := b;
      forall d | d in bs && d <= x < bs[d].next ensures d == c {
        assert Disjoint(bs, c, d) == true && Disjoint(bs, d, c) == true;
      }
    } else {
      assert Get(s.mem.addrNext, b) in bs;
      c := UnitCovered(s, bs, us, u, Get(s.mem.addrNext, b), x);
    }
  }

  /** `m_addrNext` and `m_addrPrev` are inverse on the blocks of a unit. */
  lemma AddressLinksInverse(s: Store, bs: Blocks, us: Units, b: int)
    requires Consistent(s, bs, us) && b in bs
    ensures Get(s.mem.addrNext, b) in bs ==> Get(s.mem.addrPrev, Get(s.mem.addrNext, b)) == b
    ensures Get(s.mem.addrPrev, b) in bs ==> Get(s.mem.addrNext, Get(s.mem.addrPrev, b)) == b
    ensures Get(s.mem.addrNext, b) !in bs ==> bs[b].unit in us && Get(s.mem.addrNext, b) == us[bs[b].unit]
                                              && Get(s.mem.addrNext, us[bs[b].unit]) == NULL
    ensures Get(s.mem.addrPrev, b) !in bs ==> Get(s.mem.addrPrev, b) == NULL && b in us
  {
    assert BlockOk(bs, us, b) == true && HeaderOk(s.mem, bs, b) == true;
    assert UnitOk(bs, us, bs[b].unit) == true && SentinelOk(s.mem, us, bs[b].unit) == true;
    NoBlockAtZero(bs, us);
    if bs[b].next in bs { assert HeaderOk(s.mem, bs, bs[b].next) == true; }
    if bs[b].prev in bs { assert HeaderOk(s.mem, bs, bs[b].prev) == true; }
  }

  /** Bucket k lists exactly the free blocks whose size is from 2^k up to, not including, 2^(k+1). */
  lemma BucketExact(s: Store, bs: Blocks, us: Units, k: nat, b: int)
    requires Consistent(s, bs, us) && k < TABLE_SIZE
    ensures |s.lists| == TABLE_SIZE
    ensures b in s.lists[k] <==> b in bs && !bs[b].busy && Pow2(k) <= bs[b].next - b < 2 * Pow2(k)
  {
    var cls := Classes(bs);
    assert BucketOk(s.mem.szNext, s.mem.szPrev, s.table, s.lists, cls, k) == true;
    if b in bs && !bs[b].busy {
      FreeBlockBucket(bs, us, b);
      var n := bs[b].next - b;
      Log2Bounds(n);
      if Log2(n) < k { Pow2Monotone(Log2(n) + 1, k); }
      if k < Log2(n) { Pow2Monotone(k + 1, Log2(n)); }
    }
  }

  /** No two neighbouring blocks are both free. */
  lemma NoAdjacentFree(s: Store, bs: Blocks, us: Units, b: int)
    requires Consistent(s, bs, us) && b in bs && !bs[b].busy
    ensures bs[b].next in bs ==> bs[bs[b].next].busy
    ensures bs[b].prev in bs ==> bs[bs[b].prev].busy
  {
    assert BlockOk(bs, us, b) == true && UnitOk(bs, us, bs[b].unit) == true;
    NoBlockAtZero(bs, us);
    if bs[b].prev in bs { assert BlockOk(bs, us, bs[b].prev) == true; }
  }

  /** Whatever a caller writes into its own payload, the heap stays consistent. */
  lemma CallerWriteHarmless(s: Store, bs: Blocks, us: Units, c: int, a: int, w0: int, w1: int, w2: int, w3: int)
    requires Consistent(s, bs, us) && c in bs && bs[c].busy && c + HEADER <= a < bs[c].next
    ensures var m := SetAddrPrev(SetAddrNext(SetSzPrev(SetSzNext(s.mem, a, w0), a, w1), a, w2), a, w3);
            Consistent(s.(mem := m), bs, us)
  {
    var m := SetAddrPrev(SetAddrNext(SetSzPrev(SetSzNext(s.mem, a, w0), a, w1), a, w2), a, w3);
    assert a !in bs by { if a in bs { HeaderNotInPayload(bs, us, c, a); } }
    forall b | b in bs ensures HeaderOk(m, bs, b) == true { assert HeaderOk(s.mem, bs, b) == true; }
    forall u | u in us ensures SentinelOk(m, us, u) == true {
      assert SentinelOk(s.mem, us, u) == true;
      SentinelOutside(bs, us, c, u);
    }
    BucketsFrame(s.mem.szNext, s.mem.szPrev, m.szNext, m.szPrev, s.table, s.lists, Classes(bs));
  }

  /** Freeing takes exactly the freed block out of callers' hands, and the contents of every
      other live allocation survive, although pages were released. */
  lemma FreeKeepsOthers(s: Store, bs: Blocks, us: Units, s': Store, bs': Blocks, us': Units, b: int,
                        returned: int, base: int, end: int)
    requires Consistent(s, bs, us) && b in bs && bs[b].busy
    requires Freed(s, bs, us, s', bs', us', b, returned, base, end)
    ensures Handed(bs', bs, b) == true
    ensures forall c :: c in bs && bs[c].busy && c != b ==> PayloadSame(s.mem, s'.mem, bs, c)
    ensures returned != NULL <==> forall c :: c in bs && bs[c].busy && bs[c].unit == bs[b].unit ==> c == b
  {
    FreeRange(bs, us, b);
    LastBusyBlock(bs, us, b);
    NoBlockAtZero(bs, us);
    assert UnitOk(bs, us, bs[b].unit) == true;
    if Whole(bs, us, b) {
      forall c | c in bs && bs[c].busy && c != b ensures PayloadSame(s.mem, s'.mem, bs, c) == true {
        PayloadKept(s.mem, s'.mem, bs, us, Classes(bs).Keys + {NULL}, 0, 0, c);
      }
    } else {
      MergeHanded(bs, us, b);
      forall c | c in bs && bs[c].busy && c != b ensures PayloadSame(s.mem, s'.mem, bs, c) == true {
        MergeKeepsPayload(s.mem, s'.mem, bs, us, b, c);
      }
    }
  }

  lemma MergeHanded(bs: Blocks, us: Units, b: int)
    requires Tiled(bs, us) && b in bs && bs[b].busy && !Whole(bs, us, b)
    ensures Lo(bs, b) in bs && Handed(Merge(bs, Lo(bs, b), Hi(bs, b)), bs, b) == true
  {
    FreeRange(bs, us, b);
    LoFacts(bs, us, b);
    var r := Merge(bs, Lo(bs, b), Hi(bs, b));
    forall c | c != b
      ensures ((c in bs && bs[c].busy) <==> (c in r && r[c].busy)) && (c in r && r[c].busy ==> bs[c].next == r[c].next)
    {
      if c in bs && Lo(bs, b) < c < Hi(bs, b) { Inside(bs, us, b, c); }
    }
  }

  lemma MergeKeepsPayload(m: Memory, m': Memory, bs: Blocks, us: Units, b: int, c: int)
    requires Tiled(bs, us) && b in bs && bs[b].busy && !Whole(bs, us, b) && c in bs && bs[c].busy && c != b
    requires SameOutside(m, m', Classes(bs).Keys + {Lo(bs, b), Hi(bs, b), NextFree(bs, b)}, Lo(bs, b) + 32, Hi(bs, b))
    ensures PayloadSame(m, m', bs, c) == true
  {
    FreeRange(bs, us, b);
    LoFacts(bs, us, b);
    HiFacts(bs, us, b);
    BlockEnds(bs, us, Lo(bs, b), Hi(bs, b), c);
    if Lo(bs, b) < c < Hi(bs, b) { Inside(bs, us, b, c); }
    PayloadKept(m, m', bs, us, Classes(bs).Keys + {Lo(bs, b), Hi(bs, b), NextFree(bs, b)}, Lo(bs, b) + 32, Hi(bs, b),
                c);
  }

  // ---------------------------------------------------------------------------------
  // Accounting
  // ---------------------------------------------------------------------------------

  /** Without huge requests the counter is the size of all units. `StandardOnly` holds from the constructor on, and
      `Alloc` and `Free` keep it as long as no huge request is made. */
  lemma StandardRun(h: Heap)
    requires h.Accounted() && h.StandardOnly()
    ensures h.virtualMemorySize == 0x101000 * |h.units|
  {
    assert Standard(h.units) == h.units.Keys;
  }

  lemma WholePages(size: int)
    ensures AlignHi(size) >= size && (AlignHi(size) == size <==> size % 4096 == 0)
  {
  }

  /** A huge allocation charges whole pages and its release refunds bytes: after both the size counter is where it was
      exactly if the block and its sentinel fill whole pages, and else it is too high. */
  method HugeRoundTrip(h: Heap, size: int, unit: int, junk: Memory)
    requires h.Valid() && h.Accounted() && 0 < size < WORD && IsHuge(size)
    requires Fresh(h.units, unit, unit + Rounded(size))
    modifies h, h.freeListTable
    ensures h.Valid() && h.Accounted() && h.units == old(h.units)
    ensures h.virtualMemorySize == old(h.virtualMemorySize) + AlignHi(Rounded(size) + HEADER) - (Rounded(size) + HEADER)
    ensures h.virtualMemorySize == old(h.virtualMemorySize) <==> (Rounded(size) + HEADER) % 4096 == 0
    ensures h.virtualMemorySize >= old(h.virtualMemorySize)
    ensures size == 0x100000 ==> h.virtualMemorySize == old(h.virtualMemorySize) + 0xFC0
  {
    WholePages(Rounded(size) + HEADER);
    var ok, ptr, returned, fpBase, fpEnd;
    ghost var chosen;
    ok, ptr, chosen := h.Alloc(size, unit, junk);
    OneBlockUnit(h.blocks, h.units, unit);
    returned, fpBase, fpEnd := h.Free(ptr, junk);
  }

  lemma OneBlockUnit(bs: Blocks, us: Units, u: int)
    requires Tiled(bs, us) && u in us && u in bs && bs[u].next == us[u]
    ensures bs[u].busy && bs[u].unit == u && Whole(bs, us, u)
  {
    assert UnitOk(bs, us, u) == true && BlockOk(bs, us, u) == true;
    NoBlockAtZero(bs, us);
  }
}
