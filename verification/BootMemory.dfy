/** The boot memory map of uefi/memory.cpp: firmware descriptors are merged into regions (GetMemoryMap, section 7.2 of
    the UEFI 2.7 specification), and the boot loader's own allocations are cut out of them. */
module BootMemory {
  import PageStack

  /** CPU_EXTENDED_MEMORY_BASE. */
  const EXTENDED := 0x10_0000

  /** PhysicalMemoryRegion; an end of 0 marks an unused slot. */
  datatype Region = Region(start: int, end: int)

  predicate Live(r: Region) { r.end != 0 }

  predicate In(r: Region, a: int) { r.start <= a < r.end }

  /** Only the memory below 1 MB can leave an empty region, at 1 MB. */
  predicate RegionOk(r: Region)
  {
    Live(r) ==> EXTENDED <= r.start <= r.end && (r.start == r.end ==> r.start == EXTENDED) && r.start % 4096 == 0
                && r.end % 4096 == 0
  }

  /** There is a gap between the two. */
  predicate Apart(r: Region, q: Region) { r.end < q.start || q.end < r.start }

  ghost predicate PairOk(rs: seq<Region>, i: int, j: int)
    requires 0 <= i < |rs| && 0 <= j < |rs|
  {
    i != j && Live(rs[i]) && Live(rs[j]) ==> Apart(rs[i], rs[j])
  }

  ghost predicate SlotOk(rs: seq<Region>, i: int)
    requires 0 <= i < |rs|
  {
    RegionOk(rs[i])
  }

  /** The live regions are disjoint, and no two of them touch. */
  ghost predicate Separated(rs: seq<Region>)
  {
    && (forall i {:trigger SlotOk(rs, i)} :: 0 <= i < |rs| ==> SlotOk(rs, i))
    && (forall i, j {:trigger PairOk(rs, i, j)} :: 0 <= i < |rs| && 0 <= j < |rs| ==> PairOk(rs, i, j))
  }

  ghost predicate At(rs: seq<Region>, i: int, a: int)
  {
    0 <= i < |rs| && Live(rs[i]) && In(rs[i], a)
  }

  /** Address a lies in a live region. */
  ghost predicate Covers(rs: seq<Region>, a: int)
  {
    exists i :: At(rs, i, a)
  }

  // ---------------------------------------------------------------------------------
  // Adding a range
  // ---------------------------------------------------------------------------------

  /** The range does not overlap the regions. */
  ghost predicate Clear(rs: seq<Region>, r: Region)
  {
    forall i {:trigger rs[i]} :: 0 <= i < |rs| && Live(rs[i]) ==> rs[i].end <= r.start || r.end <= rs[i].start
  }

  lemma ClearOf(rs: seq<Region>, r: Region)
    requires Separated(rs) && RegionOk(r) && Live(r) && forall a :: In(r, a) ==> !Covers(rs, a)
    ensures Clear(rs, r) == true
  {
    forall i | 0 <= i < |rs| && Live(rs[i]) ensures rs[i].end <= r.start || r.end <= rs[i].start {
      assert SlotOk(rs, i) == true;
      var a := if rs[i].start < r.start then r.start else rs[i].start;
      assert In(r, a) ==> !Covers(rs, a);
      assert At(rs, i, a) ==> Covers(rs, a);
    }
  }

  /** Region u may touch others, but at address x only. */
  ghost predicate NearOk(rs: seq<Region>, u: int, x: int, k: int)
    requires 0 <= u < |rs| && 0 <= k < |rs|
  {
    k != u && Live(rs[k]) ==> Apart(rs[u], rs[k]) || rs[k].start == x == rs[u].end || rs[k].end == x == rs[u].start
  }

  ghost predicate NearlySeparated(rs: seq<Region>, u: int, x: int)
  {
    && 0 <= u < |rs| && Live(rs[u])
    && (forall i {:trigger SlotOk(rs, i)} :: 0 <= i < |rs| ==> SlotOk(rs, i))
    && (forall i, j {:trigger PairOk(rs, i, j)} :: 0 <= i < |rs| && 0 <= j < |rs| && i != u && j != u ==>
        PairOk(rs, i, j))
    && (forall k {:trigger NearOk(rs, u, x, k)} :: 0 <= k < |rs| ==> NearOk(rs, u, x, k))
  }

  /** The regions cover what they did, and r. */
  ghost predicate Gains(rs: seq<Region>, rs': seq<Region>, r: Region)
  {
    forall a {:trigger Covers(rs', a)} :: Covers(rs', a) <==> Covers(rs, a) || In(r, a)
  }

  /** Region i grows by a range it touches. */
  lemma Grow(rs: seq<Region>, i: int, r: Region, u: Region, x: int)
    requires Separated(rs) && Clear(rs, r) && RegionOk(r) && Live(r) && 0 <= i < |rs| && Live(rs[i])
    requires (rs[i].end == r.start && u == Region(rs[i].start, r.end) && x == r.end)
             || (rs[i].start == r.end && u == Region(r.start, rs[i].end) && x == r.start)
    ensures NearlySeparated(rs[i := u], i, x) == true && Gains(rs, rs[i := u], r) == true
  {
    var rs' := rs[i := u];
    assert SlotOk(rs, i) == true;
    forall k | 0 <= k < |rs'| ensures SlotOk(rs', k) == true { assert SlotOk(rs, k) == true; }
    forall j, k | 0 <= j < |rs'| && 0 <= k < |rs'| && j != i && k != i ensures PairOk(rs', j, k) == true {
      assert PairOk(rs, j, k) == true;
    }
    forall k | 0 <= k < |rs'| ensures NearOk(rs', i, x, k) == true {
      assert PairOk(rs, i, k) == true && SlotOk(rs, k) == true;
    }
    forall a ensures Covers(rs', a) <==> Covers(rs, a) || In(r, a) { GrowCovers(rs, i, r, u, x, a); }
  }

  lemma GrowCovers(rs: seq<Region>, i: int, r: Region, u: Region, x: int, a: int)
    requires Separated(rs) && RegionOk(r) && Live(r) && 0 <= i < |rs| && Live(rs[i]) && Live(u)
    requires (rs[i].end == r.start && u == Region(rs[i].start, r.end))
             || (rs[i].start == r.end && u == Region(r.start, rs[i].end))
    ensures Covers(rs[i := u], a) <==> Covers(rs, a) || In(r, a)
  {
    var rs' := rs[i := u];
    assert SlotOk(rs, i) == true;
    if Covers(rs', a) {
      var k :| At(rs', k, a);
      assert At(rs, k, a) || In(r, a);
    }
    if Covers(rs, a) {
      var k :| At(rs, k, a);
      assert At(rs', k, a);
    }
    assert In(r, a) ==> At(rs', i, a);
  }

  /** Region j takes in region u, which it touches. */
  lemma Join(rs: seq<Region>, u: int, x: int, j: int, m: Region)
    requires NearlySeparated(rs, u, x) && 0 <= j < |rs| && j != u && Live(rs[j])
    requires (rs[j].end == rs[u].start && m == Region(rs[j].start, rs[u].end))
             || (rs[j].start == rs[u].end && m == Region(rs[u].start, rs[j].end))
    ensures var rs' := rs[j := m][u := rs[u].(end := 0)];
            Separated(rs') && forall a {:trigger Covers(rs', a)} :: Covers(rs', a) <==> Covers(rs, a)
  {
    var rs' := rs[j := m][u := rs[u].(end := 0)];
    assert SlotOk(rs, u) == true && SlotOk(rs, j) == true && NearOk(rs, u, x, j) == true;
    forall k | 0 <= k < |rs'| ensures SlotOk(rs', k) == true { assert SlotOk(rs, k) == true; }
    forall k, l | 0 <= k < |rs'| && 0 <= l < |rs'| ensures PairOk(rs', k, l) == true {
      if k != u && l != u && k != l { JoinPair(rs, u, x, j, m, k, l); }
    }
    forall a ensures Covers(rs', a) <==> Covers(rs, a) { JoinCovers(rs, u, j, m, a); }
  }

  lemma JoinPair(rs: seq<Region>, u: int, x: int, j: int, m: Region, k: int, l: int)
    requires NearlySeparated(rs, u, x) && 0 <= j < |rs| && j != u && Live(rs[j])
    requires (rs[j].end == rs[u].start && m == Region(rs[j].start, rs[u].end))
             || (rs[j].start == rs[u].end && m == Region(rs[u].start, rs[j].end))
    requires 0 <= k < |rs| && 0 <= l < |rs| && k != u && l != u && k != l
    ensures PairOk(rs[j := m][u := rs[u].(end := 0)], k, l) == true
  {
    assert SlotOk(rs, u) == true && SlotOk(rs, j) == true && SlotOk(rs, k) == true && SlotOk(rs, l) == true;
    assert PairOk(rs, k, l) == true && PairOk(rs, l, k) == true;
    assert NearOk(rs, u, x, j) == true && NearOk(rs, u, x, k) == true && NearOk(rs, u, x, l) == true;
  }

  lemma JoinCovers(rs: seq<Region>, u: int, j: int, m: Region, a: int)
    requires 0 <= u < |rs| && 0 <= j < |rs| && j != u && Live(rs[j]) && Live(rs[u]) && Live(m)
    requires rs[u].start <= rs[u].end && rs[j].start <= rs[j].end
    requires (rs[j].end == rs[u].start && m == Region(rs[j].start, rs[u].end))
             || (rs[j].start == rs[u].end && m == Region(rs[u].start, rs[j].end))
    ensures Covers(rs[j := m][u := rs[u].(end := 0)], a) <==> Covers(rs, a)
  {
    var rs' := rs[j := m][u := rs[u].(end := 0)];
    if Covers(rs', a) {
      var k :| At(rs', k, a);
      assert At(rs, k, a) || At(rs, u, a) || At(rs, j, a);
    }
    if Covers(rs, a) {
      var k :| At(rs, k, a);
      assert At(rs', k, a) || At(rs', j, a);
    }
  }

  /** A range that touches nothing gets a slot of its own. */
  lemma Place(rs: seq<Region>, k: int, r: Region, rs': seq<Region>)
    requires Separated(rs) && Clear(rs, r) && RegionOk(r) && Live(r)
    requires forall i {:trigger rs[i]} :: 0 <= i < |rs| && Live(rs[i]) ==> rs[i].end != r.start && rs[i].start != r.end
    requires (k == |rs| && rs' == rs + [r]) || (0 <= k < |rs| && !Live(rs[k]) && rs' == rs[k := r])
    ensures Separated(rs') == true && Gains(rs, rs', r) == true
  {
    forall i | 0 <= i < |rs'| ensures SlotOk(rs', i) == true { if i < |rs| { assert SlotOk(rs, i) == true; } }
    forall i, j | 0 <= i < |rs'| && 0 <= j < |rs'| ensures PairOk(rs', i, j) == true {
      if i < |rs| && j < |rs| { assert PairOk(rs, i, j) == true; }
    }
    forall a ensures Covers(rs', a) <==> Covers(rs, a) || In(r, a) {
      if Covers(rs', a) {
        var i :| At(rs', i, a);
        assert At(rs, i, a) || In(r, a);
      }
      if Covers(rs, a) {
        var i :| At(rs, i, a);
        assert At(rs', i, a);
      }
      assert In(r, a) ==> At(rs', k, a);
    }
  }

  /** The search loop of `initMemoryMap`: the first region the range touches, else the last unused slot, else none. */
  method FindTouching(rs: seq<Region>, r: Region) returns (free: int, unite: int)
    requires Live(r)
    ensures -1 <= free < |rs| && (free >= 0 ==> !Live(rs[free]))
    ensures -1 <= unite < |rs|
    ensures unite >= 0 ==> Live(rs[unite]) && (rs[unite].end == r.start || rs[unite].start == r.end)
    ensures unite < 0 ==> forall i {:trigger rs[i]} :: 0 <= i < |rs| && Live(rs[i]) ==> rs[i].end != r.start
                                                                                        && rs[i].start != r.end
  {
    free := -1;
    var i := 0;
    while i < |rs|
      invariant 0 <= i <= |rs| && -1 <= free < |rs| && (free >= 0 ==> !Live(rs[free]))
      invariant forall k {:trigger rs[k]} :: 0 <= k < i && Live(rs[k]) ==> rs[k].end != r.start && rs[k].start != r.end
    {
      if rs[i].end == 0 {
        free := i;
      } else if rs[i].end == r.start || rs[i].start == r.end {
        return free, i;
      }
      i := i + 1;
    }
    return free, -1;
  }

  /** The second loop: joins the region that grew with another it now touches. */
  method JoinTouching(rs: seq<Region>, u: int, ghost x: int) returns (rs': seq<Region>)
    requires NearlySeparated(rs, u, x)
    ensures Separated(rs') && forall a {:trigger Covers(rs', a)} :: Covers(rs', a) <==> Covers(rs, a)
  {
    assert SlotOk(rs, u) == true;
    var j := 0;
    while j < |rs|
      invariant 0 <= j <= |rs|
      invariant forall k {:trigger rs[k]} :: 0 <= k < j && k != u && Live(rs[k]) ==> rs[k].end != rs[u].start
                                                                                     && rs[k].start != rs[u].end
    {
      if rs[j].end != 0 && j != u {
        if rs[j].end == rs[u].start {
          Join(rs, u, x, j, Region(rs[j].start, rs[u].end));
          return rs[j := Region(rs[j].start, rs[u].end)][u := rs[u].(end := 0)];
        }
        if rs[j].start == rs[u].end {
          Join(rs, u, x, j, Region(rs[u].start, rs[j].end));
          return rs[j := Region(rs[u].start, rs[j].end)][u := rs[u].(end := 0)];
        }
      }
      j := j + 1;
    }
    rs' := rs;
    forall i, k | 0 <= i < |rs| && 0 <= k < |rs| ensures PairOk(rs, i, k) == true {
      assert i != u && k != u ==> PairOk(rs, i, k) == true;
      assert NearOk(rs, u, x, i) == true && NearOk(rs, u, x, k) == true;
    }
  }

  /** One descriptor of `initMemoryMap`. */
  method AddRange(rs: seq<Region>, r: Region) returns (rs': seq<Region>)
    requires Separated(rs) && RegionOk(r) && Live(r) && forall a :: In(r, a) ==> !Covers(rs, a)
    ensures Separated(rs') && Gains(rs, rs', r)
  {
    ClearOf(rs, r);
    var free, unite := FindTouching(rs, r);
    if unite >= 0 {
      var u, x := Region(rs[unite].start, r.end), r.end;
      if rs[unite].end != r.start {
        u, x := Region(r.start, rs[unite].end), r.start;
      }
      Grow(rs, unite, r, u, x);
      rs' := JoinTouching(rs[unite := u], unite, x);
    } else if free >= 0 {
      rs' := rs[free := r];
      Place(rs, free, r, rs');
    } else {
      rs' := rs + [r];
      Place(rs, |rs|, r, rs');
    }
  }

  // ---------------------------------------------------------------------------------
  // The memory map
  // ---------------------------------------------------------------------------------

  /** An EFI_MEMORY_DESCRIPTOR. */
  datatype Descriptor = Descriptor(kind: int, start: int, pages: int, attribute: int)

  /** EfiLoaderCode, EfiLoaderData, EfiBootServicesCode, EfiBootServicesData and EfiConventionalMemory, if cacheable
      in every way. */
  predicate Usable(d: Descriptor)
  {
    d.attribute % 16 == 15 && (d.kind == 1 || d.kind == 2 || d.kind == 3 || d.kind == 4 || d.kind == 7)
  }

  function Bytes(d: Descriptor): Region { Region(d.start, d.start + d.pages * 4096) }

  /** What the firmware promises of a descriptor. */
  predicate DescriptorOk(d: Descriptor)
  { 0 <= d.start && d.start % 4096 == 0 && 0 < d.pages && 0 <= d.kind && 0 <= d.attribute }

  ghost predicate Disjoint(ds: seq<Descriptor>)
  {
    forall i, j {:trigger ds[i], ds[j]} :: 0 <= i < j < |ds| ==> Bytes(ds[i]).end <= ds[j].start
                                                                 || Bytes(ds[j]).end <= ds[i].start
  }

  /** Address a is usable memory above 1 MB. */
  ghost predicate UsableAt(ds: seq<Descriptor>, a: int)
  {
    a >= EXTENDED && exists i :: 0 <= i < |ds| && Usable(ds[i]) && In(Bytes(ds[i]), a)
  }

  /** The regions are exactly the usable memory above 1 MB of all descriptors, in separate pieces. */
  method InitMemoryMap(ds: seq<Descriptor>) returns (regions: seq<Region>)
    requires Disjoint(ds) && forall i :: 0 <= i < |ds| ==> DescriptorOk(ds[i])
    ensures Separated(regions) && AllLive(regions)
    ensures forall a :: Covers(regions, a) <==> UsableAt(ds, a)
  {
    var rs: seq<Region> := [];
    var i := 0;
    while i < |ds|
      invariant 0 <= i <= |ds| && Separated(rs)
      invariant forall a :: Covers(rs, a) <==> UsableAt(ds[..i], a)
    {
      var d := ds[i];
      UsableNext(ds, i);
      if d.kind != 0 && Usable(d) {
        var end := d.start + d.pages * 4096;
        if end >= EXTENDED {
          var start := if d.start < EXTENDED then EXTENDED else d.start;
          NextIsNew(ds, i, rs);
          rs := AddRange(rs, Region(start, end));
        }
      }
      i := i + 1;
    }
    assert ds[..|ds|] == ds;
    regions := StoreLive(rs);
  }

  ghost predicate AllLive(rs: seq<Region>)
  {
    forall i {:trigger rs[i]} :: 0 <= i < |rs| ==> Live(rs[i])
  }

  lemma UsableNext(ds: seq<Descriptor>, i: nat)
    requires i < |ds|
    ensures forall a {:trigger UsableAt(ds[..i + 1], a)} :: UsableAt(ds[..i + 1], a) <==>
              UsableAt(ds[..i], a)
              || (a >= EXTENDED && Usable(ds[i]) && In(Bytes(ds[i]), a))
  {
    forall a ensures UsableAt(ds[..i + 1], a) <==> UsableAt(ds[..i], a)
                                                   || (a >= EXTENDED && Usable(ds[i]) && In(Bytes(ds[i]), a)) {
      assert ds[..i + 1][i] == ds[i];
      assert forall k :: 0 <= k < i ==> ds[..i + 1][k] == ds[k] && ds[..i][k] == ds[k];
    }
  }

  lemma NextIsNew(ds: seq<Descriptor>, i: nat, rs: seq<Region>)
    requires i < |ds| && Disjoint(ds) && forall a :: Covers(rs, a) <==> UsableAt(ds[..i], a)
    ensures forall a :: In(Bytes(ds[i]), a) ==> !Covers(rs, a)
  {
    forall a | In(Bytes(ds[i]), a) ensures !UsableAt(ds[..i], a) {
      assert forall k :: 0 <= k < i ==> ds[..i][k] == ds[k];
    }
  }

  // ---------------------------------------------------------------------------------
  // Keeping the live regions
  // ---------------------------------------------------------------------------------

  /** The live regions, in order. */
  function Compact(rs: seq<Region>): (r: seq<Region>)
  {
    if rs == [] then [] else Compact(rs[..|rs| - 1]) + (if Live(rs[|rs| - 1]) then [rs[|rs| - 1]] else [])
  }

  /** Where a region of the result comes from. */
  lemma {:induction false} Source(rs: seq<Region>, k: nat) returns (i: nat)
    requires k < |Compact(rs)|
    ensures i < |rs| && Live(rs[i]) == true && Compact(rs)[k] == rs[i]
  {
    if k < |Compact(rs[..|rs| - 1])| { i := Source(rs[..|rs| - 1], k); } else { i := |rs| - 1; }
  }

  lemma {:induction false} Target(rs: seq<Region>, i: nat) returns (k: nat)
    requires i < |rs| && Live(rs[i])
    ensures k < |Compact(rs)| && Compact(rs)[k] == rs[i]
  {
    if i == |rs| - 1 { k := |Compact(rs)| - 1; } else { k := Target(rs[..|rs| - 1], i); }
  }

  lemma {:induction false} CompactSeparated(rs: seq<Region>)
    requires Separated(rs)
    ensures Separated(Compact(rs)) == true && AllLive(Compact(rs)) == true
  {
    var c := Compact(rs);
    if rs != [] {
      var low, last := rs[..|rs| - 1], |rs| - 1;
      forall i | 0 <= i < |low| ensures SlotOk(low, i) == true { assert SlotOk(rs, i) == true; }
      forall i, j | 0 <= i < |low| && 0 <= j < |low| ensures PairOk(low, i, j) == true {
        assert PairOk(rs, i, j) == true;
      }
      CompactSeparated(low);
      var cl := Compact(low);
      forall k | 0 <= k < |c| ensures SlotOk(c, k) == true {
        if k < |cl| { assert SlotOk(cl, k) == true; } else { assert SlotOk(rs, last) == true; }
      }
      forall k, l | 0 <= k < |c| && 0 <= l < |c| ensures PairOk(c, k, l) == true {
        if k < |cl| && l < |cl| { assert PairOk(cl, k, l) == true; }
        else if k < |cl| { var i := Source(low, k); assert PairOk(rs, i, last) == true; }
        else if l < |cl| { var i := Source(low, l); assert PairOk(rs, i, last) == true; }
      }
    }
  }

  lemma CompactCovers(rs: seq<Region>, a: int)
    ensures Covers(Compact(rs), a) <==> Covers(rs, a)
  {
    if Covers(Compact(rs), a) {
      var k :| At(Compact(rs), k, a);
      var i := Source(rs, k);
      assert At(rs, i, a);
    }
    if Covers(rs, a) {
      var i :| At(rs, i, a);
      var k := Target(rs, i);
      assert At(Compact(rs), k, a);
    }
  }

  /** The last loop of `initMemoryMap`. */
  method StoreLive(rs: seq<Region>) returns (regions: seq<Region>)
    requires Separated(rs)
    ensures regions == Compact(rs) && Separated(regions) && AllLive(regions)
    ensures forall a {:trigger Covers(regions, a)} :: Covers(regions, a) <==> Covers(rs, a)
  {
    regions := [];
    var i := 0;
    while i < |rs|
      invariant 0 <= i <= |rs| && regions == Compact(rs[..i])
    {
      assert rs[..i + 1][..i] == rs[..i];
      if rs[i].end != 0 {
        regions := regions + [rs[i]];
      }
      i := i + 1;
    }
    assert rs[..|rs|] == rs;
    CompactSeparated(rs);
    forall a ensures Covers(regions, a) <==> Covers(rs, a) { CompactCovers(rs, a); }
  }

  // ---------------------------------------------------------------------------------
  // Cutting out boot allocations
  // ---------------------------------------------------------------------------------

  /** A range of whole pages that the boot loader allocated. */
  predicate UsedOk(u: Region) { 0 <= u.start < u.end && u.start % 4096 == 0 && u.end % 4096 == 0 }

  ghost predicate Covered(rs: seq<Region>, u: Region)
  {
    forall a {:trigger Covers(rs, a)} :: In(u, a) ==> Covers(rs, a)
  }

  ghost predicate Cut(rs: seq<Region>, rs': seq<Region>, u: Region)
  {
    forall a {:trigger Covers(rs', a)} :: Covers(rs', a) <==> Covers(rs, a) && !In(u, a)
  }

  function LiveCount(rs: seq<Region>): (n: nat)
  {
    if rs == [] then 0 else LiveCount(rs[..|rs| - 1]) + if Live(rs[|rs| - 1]) then 1 else 0
  }

  lemma {:induction false} CountUpdate(rs: seq<Region>, i: nat, r: Region)
    requires i < |rs|
    ensures LiveCount(rs[i := r]) == LiveCount(rs) - (if Live(rs[i]) then 1 else 0) + (if Live(r) then 1 else 0)
  {
    if i == |rs| - 1 {
      assert rs[i := r][..i] == rs[..i];
    } else {
      CountUpdate(rs[..|rs| - 1], i, r);
      assert rs[i := r][..|rs| - 1] == rs[..|rs| - 1][i := r];
    }
  }

  lemma CountAppend(rs: seq<Region>, r: Region)
    ensures LiveCount(rs + [r]) == LiveCount(rs) + if Live(r) then 1 else 0
  {
    assert (rs + [r])[..|rs|] == rs;
  }

  lemma {:induction false} CountCompact(rs: seq<Region>)
    ensures |Compact(rs)| == LiveCount(rs)
  {
    if rs != [] { CountCompact(rs[..|rs| - 1]); }
  }

  lemma {:induction false} CountAllLive(rs: seq<Region>)
    requires AllLive(rs)
    ensures LiveCount(rs) == |rs|
  {
    if rs != [] { CountAllLive(rs[..|rs| - 1]); }
  }

  /** A covered range lies in a single region, because no two regions touch. */
  lemma InOneRegion(rs: seq<Region>, u: Region) returns (i: nat)
    requires Separated(rs) && UsedOk(u) && Covered(rs, u)
    ensures i < |rs| && Live(rs[i]) == true && rs[i].start <= u.start && u.end <= rs[i].end
  {
    assert In(u, u.start) && Covers(rs, u.start);
    i :| At(rs, i, u.start);
    var a := rs[i].end;
    forall j ensures !At(rs, j, a) { NothingAtEnd(rs, i, j); }
    assert !Covers(rs, a);
  }

  lemma NothingAtEnd(rs: seq<Region>, i: int, j: int)
    requires Separated(rs) && 0 <= i < |rs| && Live(rs[i])
    ensures !At(rs, j, rs[i].end)
  {
    if 0 <= j < |rs| { assert PairOk(rs, i, j) == true && SlotOk(rs, i) == true; }
  }

  lemma OneRegionCovers(rs: seq<Region>, i: nat, u: Region)
    requires i < |rs| && Live(rs[i]) && rs[i].start <= u.start && u.end <= rs[i].end
    ensures Covered(rs, u) == true
  {
    forall a | In(u, a) ensures Covers(rs, a) { assert At(rs, i, a); }
  }

  /** The regions after the cut: what is left in front stays in slot i, what is left behind stays or is appended. */
  function CutOut(rs: seq<Region>, i: nat, u: Region): seq<Region>
    requires i < |rs|
  {
    if u.start > rs[i].start then
      var rest := rs[i := rs[i].(end := u.start)];
      if u.end < rs[i].end then rest + [Region(u.end, rs[i].end)] else rest
    else if u.end < rs[i].end then rs[i := rs[i].(start := u.end)]
    else rs[i := Region(0, 0)]
  }

  lemma CutSeparated(rs: seq<Region>, i: nat, u: Region)
    requires Separated(rs) && UsedOk(u) && i < |rs| && Live(rs[i]) && rs[i].start <= u.start && u.end <= rs[i].end
    ensures Separated(CutOut(rs, i, u)) == true
  {
    var rs' := CutOut(rs, i, u);
    assert SlotOk(rs, i) == true;
    forall k | 0 <= k < |rs'| ensures SlotOk(rs', k) == true { if k < |rs| { assert SlotOk(rs, k) == true; } }
    forall k, l | 0 <= k < |rs'| && 0 <= l < |rs'| ensures PairOk(rs', k, l) == true {
      var k0, l0 := if k < |rs| then k else i, if l < |rs| then l else i;
      assert PairOk(rs, k0, l0) == true && SlotOk(rs, k0) == true && SlotOk(rs, l0) == true;
    }
  }

  lemma CutCovers(rs: seq<Region>, i: nat, u: Region, a: int)
    requires Separated(rs) && UsedOk(u) && i < |rs| && Live(rs[i]) && rs[i].start <= u.start && u.end <= rs[i].end
    ensures Covers(CutOut(rs, i, u), a) <==> Covers(rs, a) && !In(u, a)
  {
    var rs' := CutOut(rs, i, u);
    assert SlotOk(rs, i) == true;
    if Covers(rs', a) {
      var k :| At(rs', k, a);
      var k0 := if k < |rs| then k else i;
      assert At(rs, k0, a);
      assert PairOk(rs, i, k0) == true && SlotOk(rs, k0) == true;
    }
    if Covers(rs, a) && !In(u, a) {
      var k :| At(rs, k, a);
      assert At(rs', k, a) || At(rs', |rs|, a);
    }
  }

  lemma CutCount(rs: seq<Region>, i: nat, u: Region)
    requires Separated(rs) && UsedOk(u) && i < |rs| && Live(rs[i]) && rs[i].start <= u.start && u.end <= rs[i].end
    ensures LiveCount(CutOut(rs, i, u)) == LiveCount(rs) + (if u.start > rs[i].start && u.end < rs[i].end then 1 else 0)
                                           - (if u.start <= rs[i].start && u.end >= rs[i].end then 1 else 0)
  {
    assert SlotOk(rs, i) == true;
    if u.start > rs[i].start {
      CountUpdate(rs, i, rs[i].(end := u.start));
      if u.end < rs[i].end { CountAppend(rs[i := rs[i].(end := u.start)], Region(u.end, rs[i].end)); }
    } else if u.end < rs[i].end {
      CountUpdate(rs, i, rs[i].(start := u.end));
    } else {
      CountUpdate(rs, i, Region(0, 0));
    }
  }

  /** Boot allocations do not overlap. */
  ghost predicate UsedDisjoint(us: seq<Region>)
  {
    && (forall i {:trigger us[i]} :: 0 <= i < |us| ==> UsedOk(us[i]))
    && (forall i, j {:trigger us[i], us[j]} :: 0 <= i < j < |us| ==> us[i].end <= us[j].start
                                                                     || us[j].end <= us[i].start)
  }

  /** Address a belongs to one of the first n boot allocations. */
  ghost predicate UsedAt(us: seq<Region>, n: int, a: int)
  {
    exists k :: 0 <= k < n && k < |us| && In(us[k], a)
  }

  /** The regions are the free ones without the first n boot allocations. */
  ghost predicate WithoutUsed(free: seq<Region>, rs: seq<Region>, us: seq<Region>, n: int)
  {
    forall a {:trigger Covers(rs, a)} :: Covers(rs, a) <==> Covers(free, a) && !UsedAt(us, n, a)
  }

  /** Earlier cuts do not touch the next boot allocation. */
  lemma CoveredStill(free: seq<Region>, rs: seq<Region>, us: seq<Region>, i: nat)
    requires i < |us| && UsedDisjoint(us) && WithoutUsed(free, rs, us, i)
    ensures Covered(rs, us[i]) <==> Covered(free, us[i])
  {
    forall a | In(us[i], a) ensures Covers(rs, a) <==> Covers(free, a) {
      assert !UsedAt(us, i, a);
    }
  }

  lemma UsedNext(free: seq<Region>, rs: seq<Region>, rs': seq<Region>, us: seq<Region>, i: nat)
    requires i < |us| && WithoutUsed(free, rs, us, i) && Cut(rs, rs', us[i])
    ensures WithoutUsed(free, rs', us, i + 1) == true
  {
    forall a ensures Covers(rs', a) <==> Covers(free, a) && !UsedAt(us, i + 1, a) {
      assert Covers(rs, a) <==> Covers(free, a) && !UsedAt(us, i, a);
      assert UsedAt(us, i + 1, a) <==> UsedAt(us, i, a) || In(us[i], a);
    }
  }

  class KernelAllocator {
    var freeRegions: seq<Region>
    var usedRegions: seq<Region>

    /** Cuts a boot allocation out of the free regions; false stands for the panic that no region holds it. */
    method StoreBusyRegion(u: Region, regCnt: int) returns (ok: bool, regCnt': int)
      requires Separated(freeRegions) && UsedOk(u) && regCnt == LiveCount(freeRegions)
      modifies this`freeRegions
      ensures ok <==> Covered(old(freeRegions), u)
      ensures ok ==> Separated(freeRegions) && Cut(old(freeRegions), freeRegions, u)
      ensures ok ==> regCnt' == LiveCount(freeRegions) <= regCnt + 1
      ensures !ok ==> freeRegions == old(freeRegions)
    {
      ghost var rs := freeRegions;
      regCnt' := regCnt;
      var i := 0;
      while i < |freeRegions| && !(freeRegions[i].start <= u.start && u.end <= freeRegions[i].end)
        invariant 0 <= i <= |freeRegions| && freeRegions == rs
        invariant forall k :: 0 <= k < i ==> !(rs[k].start <= u.start && u.end <= rs[k].end)
      {
        i := i + 1;
      }
      if i == |freeRegions| {
        if Covered(rs, u) { var k := InOneRegion(rs, u); }
        return false, regCnt;
      }
      OneRegionCovers(rs, i, u);
      CutSeparated(rs, i, u);
      CutCount(rs, i, u);
      forall a ensures Covers(CutOut(rs, i, u), a) <==> Covers(rs, a) && !In(u, a) { CutCovers(rs, i, u, a); }
      if u.start > freeRegions[i].start {
        if u.end < freeRegions[i].end {
          freeRegions := freeRegions + [Region(u.end, freeRegions[i].end)];
          regCnt' := regCnt' + 1;
        }
        freeRegions := freeRegions[i := freeRegions[i].(end := u.start)];
      } else if u.end < freeRegions[i].end {
        freeRegions := freeRegions[i := freeRegions[i].(start := u.end)];
      } else {
        freeRegions := freeRegions[i := Region(0, 0)];
        regCnt' := regCnt' - 1;
      }
      assert freeRegions == CutOut(rs, i, u);
      ok := true;
    }

    /** Cuts the boot allocations from number `from` on out of the free regions. */
    method StoreBusyRegions(from: nat, regCnt: int, ghost free: seq<Region>) returns (ok: bool, regCnt': int)
      requires from <= |usedRegions| && UsedDisjoint(usedRegions)
      requires Separated(freeRegions) && regCnt == LiveCount(freeRegions)
      requires WithoutUsed(free, freeRegions, usedRegions, from)
      requires forall k {:trigger usedRegions[k]} :: 0 <= k < from ==> Covered(free, usedRegions[k])
      modifies this`freeRegions
      ensures ok <==> forall k {:trigger usedRegions[k]} :: 0 <= k < |usedRegions| ==> Covered(free, usedRegions[k])
      ensures ok ==> Separated(freeRegions) && regCnt' == LiveCount(freeRegions) <= regCnt + (|usedRegions| - from)
                     && WithoutUsed(free, freeRegions, usedRegions, |usedRegions|)
    {
      regCnt' := regCnt;
      var i := from;
      while i < |usedRegions|
        invariant from <= i <= |usedRegions| && Separated(freeRegions)
        invariant regCnt' == LiveCount(freeRegions) <= regCnt + (i - from)
        invariant WithoutUsed(free, freeRegions, usedRegions, i)
        invariant forall k {:trigger usedRegions[k]} :: 0 <= k < i ==> Covered(free, usedRegions[k])
      {
        ghost var rs := freeRegions;
        CoveredStill(free, rs, usedRegions, i);
        ok, regCnt' := StoreBusyRegion(usedRegions[i], regCnt');
        if !ok {
          assert !Covered(free, usedRegions[i]);
          return;
        }
        UsedNext(free, rs, freeRegions, usedRegions, i);
        i := i + 1;
      }
      ok := true;
    }

    /** `storeParams`: `allocate` tells where the firmware puts so many pages; the table of regions is one more boot
        allocation. False stands for a panic: the one that the regions became too many for the table cannot happen.
        `regCnt` is the number of regions the kernel is told. */
    method StoreParams(allocate: nat -> int) returns (ok: bool, regions: seq<Region>, regCnt: int)
      requires Separated(freeRegions) && AllLive(freeRegions)
      requires forall n: nat {:trigger allocate(n)} :: n > 0 ==>
               UsedDisjoint(usedRegions + [Region(allocate(n), allocate(n) + n * 4096)])
      modifies this
      ensures ok ==> |usedRegions| == |old(usedRegions)| + 1 && usedRegions[..|old(usedRegions)|] == old(usedRegions)
      ensures ok <==> forall k {:trigger usedRegions[k]} :: 0 <= k < |usedRegions| ==>
              Covered(old(freeRegions), usedRegions[k])
      ensures ok ==> Separated(regions) && AllLive(regions) && regCnt == |regions|
                     && WithoutUsed(old(freeRegions), regions, usedRegions, |usedRegions|)
      ensures ok ==> |regions| * 16 <= usedRegions[|old(usedRegions)|].end - usedRegions[|old(usedRegions)|].start
    {
      ghost var free, used := freeRegions, usedRegions;
      var usedRegionIdx := |usedRegions|;
      regCnt := |freeRegions|;
      CountAllLive(freeRegions);
      UsedPart(usedRegions, Region(allocate(1), allocate(1) + 4096));
      ok, regCnt := StoreBusyRegions(0, regCnt, free);
      if !ok {
        return false, [], 0;
      }
      var regCntLimit := regCnt + 1;
      var pages := (regCntLimit * 16 + 4095) / 4096;
      var table := allocate(pages);
      usedRegions := usedRegions + [Region(table, table + pages * 4096)];
      UsedPrefix(free, freeRegions, used, usedRegions);
      ok, regCnt := StoreBusyRegions(usedRegionIdx, regCnt, free);
      if !ok {
        return false, [], 0;
      }
      if regCnt > regCntLimit {
        assert false;
        return false, [], 0;
      }
      regions := StoreLive(freeRegions);
      CountCompact(freeRegions);
    }
  }

  lemma UsedPart(us: seq<Region>, u: Region)
    requires UsedDisjoint(us + [u])
    ensures UsedDisjoint(us) == true
  {
    var vs := us + [u];
    forall i | 0 <= i < |us| ensures UsedOk(us[i]) { assert vs[i] == us[i]; }
    forall i, j | 0 <= i < j < |us| ensures us[i].end <= us[j].start || us[j].end <= us[i].start {
      assert vs[i] == us[i] && vs[j] == us[j];
    }
  }

  lemma UsedPrefix(free: seq<Region>, rs: seq<Region>, us: seq<Region>, vs: seq<Region>)
    requires WithoutUsed(free, rs, us, |us|) && us <= vs
    ensures WithoutUsed(free, rs, vs, |us|) == true
  {
    forall a ensures UsedAt(vs, |us|, a) <==> UsedAt(us, |us|, a) {}
  }

  /** The whole way from the descriptors to the table the kernel gets: it lists exactly the usable memory above 1 MB
      that the boot loader does not use, in disjoint regions of whole pages, as the kernel's page stack needs it. */
  lemma KernelRegions(ds: seq<Descriptor>, free: seq<Region>, us: seq<Region>, regions: seq<Region>)
    requires (forall a :: Covers(free, a) <==> UsableAt(ds, a)) && WithoutUsed(free, regions, us, |us|)
    requires Separated(regions) && AllLive(regions)
    ensures forall a {:trigger Covers(regions, a)} :: Covers(regions, a) <==> UsableAt(ds, a) && !UsedAt(us, |us|, a)
    ensures PageStack.Disjoint(ForKernel(regions))
  {
    forall i | 0 <= i < |regions| ensures RegionOk(regions[i]) { assert SlotOk(regions, i) == true; }
    forall i, j | 0 <= i < j < |regions| ensures Apart(regions[i], regions[j]) { assert PairOk(regions, i, j) == true; }
  }

  function ForKernel(regions: seq<Region>): seq<PageStack.Region>
  {
    seq(|regions|, i requires 0 <= i < |regions| =>
      PageStack.Region(if regions[i].start >= 0 then regions[i].start else 0, if regions[i].end >= 0
                       then regions[i].end else 0))
  }
}
