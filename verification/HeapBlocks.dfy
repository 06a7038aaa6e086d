/** The blocks of the kernel heap (kernel/Heap.cpp), without the memory that encodes them:
    every unit obtained from the virtual memory manager is tiled by blocks up to a sentinel. */
module HeapBlocks {

  /** A block starts with a 32-byte header at its address (the key in a map of blocks) and
      ends where `next` starts: the next block or the unit's sentinel. `prev` is 0 for the
      first block of a unit. */
  datatype Block = Block(next: int, prev: int, busy: bool, unit: int)

  type Blocks = map<int, Block>

  /** Unit base address to sentinel address. */
  type Units = map<int, int>

  const HEADER := 32

  /** HEAP_ALLOC_UNIT_SIZE less the sentinel. */
  const UNIT_SPAN := 0x100FE0

  const ADDRESS_END := 0xFFFF_FFFF_FFFF_FFFF

  /** A block fits its unit, and the blocks before and after it agree. */
  ghost predicate BlockOk(bs: Blocks, us: Units, b: int)
    requires b in bs
  {
    var k := bs[b];
    && 0 < b < k.next && b % 32 == 0 && k.next % 32 == 0
    && k.unit in us && k.unit <= b && k.next <= us[k.unit]
    && (k.next < us[k.unit] ==>
          k.next in bs && bs[k.next].prev == b && bs[k.next].unit == k.unit && (k.busy || bs[k.next].busy))
    && (if b == k.unit then k.prev == 0 else k.prev in bs && bs[k.prev].next == b && bs[k.prev].unit == k.unit)
  }

  /** A unit is page aligned, starts with a block and is not all free. A unit of any other
      length than the standard one is one busy block. */
  ghost predicate UnitOk(bs: Blocks, us: Units, u: int)
    requires u in us
  {
    && 0 < u < us[u] && u % 4096 == 0 && us[u] % 32 == 0 && us[u] + 32 <= ADDRESS_END
    && us[u] !in bs && u in bs && bs[u].unit == u
    && (bs[u].next == us[u] ==> bs[u].busy)
    && (us[u] - u == UNIT_SPAN || bs[u].next == us[u])
  }

  /** Two blocks do not overlap. */
  ghost predicate Disjoint(bs: Blocks, b: int, c: int)
    requires b in bs && c in bs
  {
    b < c ==> bs[b].next <= c
  }

  /** Units, sentinels included, do not overlap. */
  ghost predicate Apart(us: Units)
  {
    forall u, v :: u in us && v in us && u < v ==> us[u] + 32 <= v
  }

  ghost predicate Tiled(bs: Blocks, us: Units)
  {
    && (forall b {:trigger BlockOk(bs, us, b)} :: b in bs ==> BlockOk(bs, us, b))
    && (forall u {:trigger UnitOk(bs, us, u)} :: u in us ==> UnitOk(bs, us, u))
    && (forall b, c {:trigger Disjoint(bs, b, c)} :: b in bs && c in bs ==> Disjoint(bs, b, c))
    && Apart(us)
  }

  /** Block b ends at m, and the rest is a free block at m. */
  function Split(bs: Blocks, b: int, m: int, busy: bool): (r: Blocks)
    requires b in bs
  {
    var k := bs[b];
    var r := bs[b := k.(next := m, busy := busy)][m := Block(k.next, b, false, k.unit)];
    if k.next in bs then r[k.next := bs[k.next].(prev := m)] else r
  }

  /** One free block from lo up to hi in place of all blocks in between. */
  function Merge(bs: Blocks, lo: int, hi: int): (r: Blocks)
    requires lo in bs
  {
    var r := (map b | b in bs && !(lo < b < hi) :: bs[b])[lo := bs[lo].(next := hi, busy := false)];
    if hi in bs then r[hi := bs[hi].(prev := lo)] else r
  }

  lemma SplitBlock(bs: Blocks, us: Units, b: int, m: int, c: int)
    requires Tiled(bs, us) && b in bs && !bs[b].busy && b < m < bs[b].next && m % 32 == 0
    requires c in Split(bs, b, m, true)
    ensures m !in bs && BlockOk(Split(bs, b, m, true), us, c) == true
  {
    assert BlockOk(bs, us, b) == true;
    assert m in bs ==> Disjoint(bs, b, m) == true;
    if c in bs {
      assert BlockOk(bs, us, c) == true;
      assert bs[c].next in bs ==> BlockOk(bs, us, bs[c].next) == true;
    }
  }

  lemma SplitDisjoint(bs: Blocks, us: Units, b: int, m: int, c: int, d: int)
    requires Tiled(bs, us) && b in bs && !bs[b].busy && b < m < bs[b].next && m % 32 == 0
    requires c in Split(bs, b, m, true) && d in Split(bs, b, m, true)
    ensures Disjoint(Split(bs, b, m, true), c, d) == true
  {
    assert BlockOk(bs, us, b) == true;
    if c in bs && d in bs { assert Disjoint(bs, c, d) == true; }
    if c in bs { assert Disjoint(bs, c, b) == true && Disjoint(bs, b, c) == true; }
    if d in bs { assert Disjoint(bs, b, d) == true; }
  }

  lemma SplitTiled(bs: Blocks, us: Units, b: int, m: int)
    requires Tiled(bs, us) && b in bs && !bs[b].busy && b < m < bs[b].next && m % 32 == 0
    ensures m !in bs && Tiled(Split(bs, b, m, true), us) == true
  {
    var r := Split(bs, b, m, true);
    assert BlockOk(bs, us, b) == true;
    assert b in r;
    SplitBlock(bs, us, b, m, b);
    forall c | c in r ensures BlockOk(r, us, c) == true { SplitBlock(bs, us, b, m, c); }
    forall c, d | c in r && d in r ensures Disjoint(r, c, d) == true { SplitDisjoint(bs, us, b, m, c, d); }
    forall u | u in us ensures UnitOk(r, us, u) == true { SplitUnit(bs, us, b, m, u); }
  }

  /** A sentinel is outside every block. */
  lemma SentinelOutside(bs: Blocks, us: Units, b: int, u: int)
    requires Tiled(bs, us) && b in bs && u in us
    ensures !(b <= us[u] < bs[b].next)
  {
    assert BlockOk(bs, us, b) == true;
    assert UnitOk(bs, us, u) == true && UnitOk(bs, us, bs[b].unit) == true;
  }

  lemma SplitUnit(bs: Blocks, us: Units, b: int, m: int, u: int)
    requires Tiled(bs, us) && b in bs && !bs[b].busy && b < m < bs[b].next && m % 32 == 0 && u in us
    ensures UnitOk(Split(bs, b, m, true), us, u) == true
  {
    assert BlockOk(bs, us, b) == true && UnitOk(bs, us, u) == true;
    SentinelOutside(bs, us, b, u);
    assert BlockOk(bs, us, u) == true;
  }

  /** What a range inside one unit, from block lo up to hi, must satisfy to be merged: the
      block before it and the block after it, if any, are busy, and it is not the whole unit. */
  ghost predicate Mergeable(bs: Blocks, us: Units, lo: int, hi: int)
  {
    && lo in bs && lo < hi && bs[lo].unit in us && us[bs[lo].unit] - bs[lo].unit == UNIT_SPAN
    && (hi == us[bs[lo].unit] || (hi in bs && bs[hi].unit == bs[lo].unit && bs[hi].busy))
    && (lo == bs[lo].unit || (bs[lo].prev in bs && bs[bs[lo].prev].busy))
    && !(lo == bs[lo].unit && hi == us[bs[lo].unit])
  }

  lemma MergeBlockNext(bs: Blocks, us: Units, lo: int, hi: int, c: int)
    requires Tiled(bs, us) && Mergeable(bs, us, lo, hi) && c in bs && (c < lo || hi <= c)
    ensures var n := bs[c].next;
            && (c < lo ==> n <= lo) && hi != n
            && (n in bs ==> n in Merge(bs, lo, hi) && (n == lo ==> bs[lo].prev == c && bs[c].busy))
  {
    assert BlockOk(bs, us, c) == true && BlockOk(bs, us, lo) == true;
    assert Disjoint(bs, c, lo) == true;
    BlockEnds(bs, us, lo, hi, lo);
    if hi in bs {
      assert BlockOk(bs, us, hi) == true && Disjoint(bs, lo, hi) == true;
    } else {
      assert UnitOk(bs, us, bs[lo].unit) == true;
    }
  }

  lemma MergeBlock(bs: Blocks, us: Units, lo: int, hi: int, c: int)
    requires Tiled(bs, us) && Mergeable(bs, us, lo, hi) && c in Merge(bs, lo, hi)
    ensures BlockOk(Merge(bs, lo, hi), us, c) == true
  {
    assert BlockOk(bs, us, c) == true && BlockOk(bs, us, lo) == true;
    if c < lo || hi <= c {
      MergeBlockNext(bs, us, lo, hi, c);
    } else {
      assert UnitOk(bs, us, bs[lo].unit) == true;
      if hi in bs { assert BlockOk(bs, us, hi) == true; }
    }
    if bs[c].prev in bs {
      assert BlockOk(bs, us, bs[c].prev) == true;
      BlockEnds(bs, us, lo, hi, bs[c].prev);
    }
  }

  /** The blocks inside a mergeable range end inside it. */
  lemma BlockEnds(bs: Blocks, us: Units, lo: int, hi: int, c: int)
    requires Tiled(bs, us) && Mergeable(bs, us, lo, hi) && c in bs
    ensures lo <= c < hi ==> bs[c].next <= hi
    ensures c < lo ==> bs[c].next <= lo
  {
    assert BlockOk(bs, us, c) == true && Disjoint(bs, c, lo) == true;
    if hi in bs {
      assert Disjoint(bs, c, hi) == true;
    } else {
      SentinelOutside(bs, us, c, bs[lo].unit);
    }
  }

  lemma MergeDisjoint(bs: Blocks, us: Units, lo: int, hi: int, c: int, d: int)
    requires Tiled(bs, us) && Mergeable(bs, us, lo, hi) && c in Merge(bs, lo, hi) && d in Merge(bs, lo, hi)
    ensures Disjoint(Merge(bs, lo, hi), c, d) == true
  {
    assert Disjoint(bs, c, d) == true && Disjoint(bs, lo, d) == true;
  }

  lemma MergeUnit(bs: Blocks, us: Units, lo: int, hi: int, u: int)
    requires Tiled(bs, us) && Mergeable(bs, us, lo, hi) && u in us
    ensures UnitOk(Merge(bs, lo, hi), us, u) == true
  {
    assert UnitOk(bs, us, u) == true && UnitOk(bs, us, bs[lo].unit) == true;
    assert BlockOk(bs, us, u) == true && BlockOk(bs, us, lo) == true;
    if hi in bs { assert BlockOk(bs, us, hi) == true; }
  }

  lemma MergeTiled(bs: Blocks, us: Units, lo: int, hi: int)
    requires Tiled(bs, us) && Mergeable(bs, us, lo, hi)
    ensures Tiled(Merge(bs, lo, hi), us) == true
  {
    var r := Merge(bs, lo, hi);
    forall c | c in r ensures BlockOk(r, us, c) == true { MergeBlock(bs, us, lo, hi, c); }
    forall c, d | c in r && d in r ensures Disjoint(r, c, d) == true { MergeDisjoint(bs, us, lo, hi, c, d); }
    forall u | u in us ensures UnitOk(r, us, u) == true { MergeUnit(bs, us, lo, hi, u); }
  }

  /** Taking a whole free block. */
  lemma TakeTiled(bs: Blocks, us: Units, b: int)
    requires Tiled(bs, us) && b in bs
    ensures Tiled(bs[b := bs[b].(busy := true)], us) == true
  {
    var r := bs[b := bs[b].(busy := true)];
    forall c | c in r ensures BlockOk(r, us, c) == true { assert BlockOk(bs, us, c) == true; }
    forall c, d | c in r && d in r ensures Disjoint(r, c, d) == true { assert Disjoint(bs, c, d) == true; }
    forall u | u in us ensures UnitOk(r, us, u) == true { assert UnitOk(bs, us, u) == true; }
  }

  /** A range of addresses that no unit uses yet. */
  ghost predicate Fresh(us: Units, u: int, end: int)
  {
    && 0 < u < end && u % 4096 == 0 && end % 32 == 0 && end + 32 <= ADDRESS_END
    && u !in us
    && (forall v :: v in us ==> us[v] + 32 <= u || end + 32 <= v)
  }

  /** A new unit of a busy block of the given size, and a free rest if there is one. */
  function NewUnit(bs: Blocks, u: int, size: int, end: int): (r: Blocks)
  {
    if u + size == end then bs[u := Block(end, 0, true, u)]
    else bs[u := Block(u + size, 0, true, u)][u + size := Block(end, u, false, u)]
  }

  lemma FreshOutside(bs: Blocks, us: Units, u: int, end: int, b: int)
    requires Tiled(bs, us) && Fresh(us, u, end) && b in bs
    ensures b < bs[b].next && (bs[b].next + 32 <= u || end + 32 <= b)
  {
    assert BlockOk(bs, us, b) == true;
  }

  lemma UnitAligned(u: int, size: int)
    requires u % 4096 == 0 && size % 32 == 0
    ensures u % 32 == 0 && (u + size) % 32 == 0
  {
    var q := u / 4096;
    assert u == 32 * (128 * q);
    assert u + size == 32 * (128 * q + size / 32);
  }

  lemma NewUnitOwnBlock(bs: Blocks, us: Units, u: int, size: int, end: int, c: int)
    requires Tiled(bs, us) && Fresh(us, u, end) && 0 < size <= end - u && size % 32 == 0
    requires c in NewUnit(bs, u, size, end) && (c == u || c == u + size)
    ensures BlockOk(NewUnit(bs, u, size, end), us[u := end], c) == true
  {
    UnitAligned(u, size);
    if u + size in bs { FreshOutside(bs, us, u, end, u + size); }
    if end in bs { FreshOutside(bs, us, u, end, end); }
  }

  lemma NewUnitBlock(bs: Blocks, us: Units, u: int, size: int, end: int, c: int)
    requires Tiled(bs, us) && Fresh(us, u, end) && 0 < size <= end - u && size % 32 == 0
    requires c in NewUnit(bs, u, size, end)
    ensures BlockOk(NewUnit(bs, u, size, end), us[u := end], c) == true
  {
    if c == u || c == u + size {
      NewUnitOwnBlock(bs, us, u, size, end, c);
    } else {
      if u in bs { FreshOutside(bs, us, u, end, u); }
      if u + size in bs { FreshOutside(bs, us, u, end, u + size); }
      assert BlockOk(bs, us, c) == true;
    }
  }

  lemma NewUnitUnit(bs: Blocks, us: Units, u: int, size: int, end: int, v: int)
    requires Tiled(bs, us) && Fresh(us, u, end) && 0 < size <= end - u && size % 32 == 0
    requires (end - u == UNIT_SPAN || size == end - u) && v in us[u := end]
    ensures UnitOk(NewUnit(bs, u, size, end), us[u := end], v) == true
  {
    if end in bs { FreshOutside(bs, us, u, end, end); }
    if v != u { assert UnitOk(bs, us, v) == true; }
  }

  lemma NewUnitTiled(bs: Blocks, us: Units, u: int, size: int, end: int)
    requires Tiled(bs, us) && Fresh(us, u, end) && 0 < size <= end - u && size % 32 == 0
    requires end - u == UNIT_SPAN || size == end - u
    ensures Tiled(NewUnit(bs, u, size, end), us[u := end]) == true
    ensures u !in bs && u + size !in bs
  {
    var r, us' := NewUnit(bs, u, size, end), us[u := end];
    if u in bs { FreshOutside(bs, us, u, end, u); }
    if u + size in bs { FreshOutside(bs, us, u, end, u + size); }
    forall c | c in r ensures BlockOk(r, us', c) == true { NewUnitBlock(bs, us, u, size, end, c); }
    forall c, d | c in r && d in r ensures Disjoint(r, c, d) == true {
      if c in bs { FreshOutside(bs, us, u, end, c); }
      if d in bs { FreshOutside(bs, us, u, end, d); }
      if c in bs && d in bs { assert Disjoint(bs, c, d) == true; }
    }
    forall v | v in us' ensures UnitOk(r, us', v) == true { NewUnitUnit(bs, us, u, size, end, v); }
  }

  /** All blocks of a unit disappear with it. */
  function DropUnit(bs: Blocks, u: int): (r: Blocks)
  {
    map b | b in bs && bs[b].unit != u :: bs[b]
  }

  lemma DropUnitTiled(bs: Blocks, us: Units, u: int)
    requires Tiled(bs, us) && u in us
    ensures Tiled(DropUnit(bs, u), us - {u}) == true
  {
    var r, us' := DropUnit(bs, u), us - {u};
    forall c | c in r ensures BlockOk(r, us', c) == true { assert BlockOk(bs, us, c) == true; }
    forall c, d | c in r && d in r ensures Disjoint(r, c, d) == true { assert Disjoint(bs, c, d) == true; }
    forall v | v in us' ensures UnitOk(r, us', v) == true { assert UnitOk(bs, us, v) == true; }
  }

  // ---------------------------------------------------------------------------------
  // Freeing
  // ---------------------------------------------------------------------------------

  /** Where the free block that results from freeing b starts and ends: it takes in the block
      before and the block after b if they are free. */
  function Lo(bs: Blocks, b: int): int
    requires b in bs
  {
    if bs[b].prev in bs && !bs[bs[b].prev].busy then bs[b].prev else b
  }

  function Hi(bs: Blocks, b: int): int
    requires b in bs
  {
    if bs[b].next in bs && !bs[bs[b].next].busy then bs[bs[b].next].next else bs[b].next
  }

  /** The free range is the whole unit: no other block of the unit is busy. */
  predicate Whole(bs: Blocks, us: Units, b: int)
    requires b in bs
  {
    bs[b].unit in us && Lo(bs, b) == bs[b].unit && Hi(bs, b) == us[bs[b].unit]
  }

  lemma NoBlockAtZero(bs: Blocks, us: Units)
    requires Tiled(bs, us)
    ensures 0 !in bs && 0 !in us
  {
    assert 0 in bs ==> BlockOk(bs, us, 0) == true;
    assert 0 in us ==> UnitOk(bs, us, 0) == true;
  }

  lemma LoFacts(bs: Blocks, us: Units, b: int)
    requires Tiled(bs, us) && b in bs
    ensures var lo := Lo(bs, b);
            && lo in bs && bs[lo].unit == bs[b].unit && bs[b].unit <= lo <= b
            && (lo == bs[b].unit || (bs[lo].prev in bs && bs[bs[lo].prev].busy && bs[bs[lo].prev].unit == bs[b].unit))
            && (lo != b ==> bs[lo].next == b)
  {
    assert BlockOk(bs, us, b) == true;
    NoBlockAtZero(bs, us);
    var p := bs[b].prev;
    if b != bs[b].unit {
      assert BlockOk(bs, us, p) == true;
      if p != bs[b].unit { assert BlockOk(bs, us, bs[p].prev) == true; }
    }
  }

  lemma HiFacts(bs: Blocks, us: Units, b: int)
    requires Tiled(bs, us) && b in bs
    ensures bs[b].unit in us && b < bs[b].next <= Hi(bs, b) <= us[bs[b].unit]
    ensures var hi := Hi(bs, b);
            hi == us[bs[b].unit] || (hi in bs && bs[hi].unit == bs[b].unit && bs[hi].busy)
  {
    assert BlockOk(bs, us, b) == true && UnitOk(bs, us, bs[b].unit) == true;
    var n := bs[b].next;
    if n in bs {
      assert BlockOk(bs, us, n) == true;
    }
  }

  lemma FreeRange(bs: Blocks, us: Units, b: int)
    requires Tiled(bs, us) && b in bs && bs[b].busy
    ensures bs[b].unit in us && bs[b].unit <= Lo(bs, b) <= b < bs[b].next <= Hi(bs, b) <= us[bs[b].unit]
    ensures Lo(bs, b) in bs && bs[Lo(bs, b)].unit == bs[b].unit
    ensures Whole(bs, us, b) || Mergeable(bs, us, Lo(bs, b), Hi(bs, b))
  {
    LoFacts(bs, us, b);
    HiFacts(bs, us, b);
    var u := bs[b].unit;
    assert UnitOk(bs, us, u) == true;
    assert BlockOk(bs, us, b) == true && Disjoint(bs, u, b) == true;
  }

  /** Inside the free range there are at most b itself and the block after it. */
  lemma Inside(bs: Blocks, us: Units, b: int, c: int)
    requires Tiled(bs, us) && b in bs && bs[b].busy && c in bs && Lo(bs, b) < c < Hi(bs, b)
    ensures c == b || (c == bs[b].next && !bs[c].busy)
  {
    LoFacts(bs, us, b);
    assert Disjoint(bs, b, c) == true && Disjoint(bs, c, b) == true && Disjoint(bs, Lo(bs, b), c) == true;
    assert BlockOk(bs, us, c) == true;
    if bs[b].next in bs { assert Disjoint(bs, bs[b].next, c) == true; }
  }

  /** The unit has no other busy block exactly if the free range is the whole unit. */
  lemma LastBusyBlock(bs: Blocks, us: Units, b: int)
    requires Tiled(bs, us) && b in bs && bs[b].busy
    ensures Whole(bs, us, b) <==> forall c :: c in bs && bs[c].busy && bs[c].unit == bs[b].unit ==> c == b
  {
    FreeRange(bs, us, b);
    assert BlockOk(bs, us, b) == true;
    if Whole(bs, us, b) {
      forall c | c in bs && bs[c].busy && bs[c].unit == bs[b].unit ensures c == b {
        assert BlockOk(bs, us, c) == true;
        if c == Lo(bs, b) { } else { Inside(bs, us, b, c); }
      }
    } else {
      var lo, hi := Lo(bs, b), Hi(bs, b);
      if lo != bs[b].unit {
        assert BlockOk(bs, us, lo) == true;
        assert bs[bs[lo].prev].busy && bs[bs[lo].prev].unit == bs[b].unit;
      }
    }
  }
}
