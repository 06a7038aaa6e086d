/** The partition of virtual pages that kernel/VirtualMemoryManager.cpp maintains: busy runs
    and maximal free runs, and the tag word it keeps for every page. */
module PageRuns {

  /** A run of n pages (its first page is the key in a map of runs) and the first page of the
      run before it, -1 for the first run. A free run has a list item; a busy run may carry the
      flag that it has page-table entries to release. */
  datatype Run = Run(n: int, prev: int, free: bool, item: int, alloc: bool)

  type Runs = map<int, Run>

  ghost predicate RunOk(rs: Runs, P: int, b: int)
    requires b in rs
  {
    var k := rs[b];
    && 0 <= b && 1 <= k.n && b + k.n <= P
    && (b + k.n < P ==> b + k.n in rs && rs[b + k.n].prev == b && !(k.free && rs[b + k.n].free))
    && (if b == 0 then k.prev == -1 else k.prev in rs && k.prev + rs[k.prev].n == b)
  }

  ghost predicate Apart(rs: Runs, b: int, c: int)
    requires b in rs && c in rs
  {
    b < c ==> b + rs[b].n <= c
  }

  /** The runs cover the pages from 0 up to P, without overlap and without two free neighbours. */
  ghost predicate Partition(rs: Runs, P: int)
  {
    && (forall b {:trigger RunOk(rs, P, b)} :: b in rs ==> RunOk(rs, P, b))
    && (forall b, c {:trigger Apart(rs, b, c)} :: b in rs && c in rs ==> Apart(rs, b, c))
    && (P > 0 ==> 0 in rs)
  }

  // ---------------------------------------------------------------------------------
  // Taking pages from a free run
  // ---------------------------------------------------------------------------------

  function Busy(rs: Runs, b: int, n: int): Run
    requires b in rs
  {
    Run(n, rs[b].prev, false, 0, false)
  }

  /** The first n pages of free run b become busy; the rest, if any, is a free run. */
  function Take(rs: Runs, b: int, n: int, item: int): Runs
    requires b in rs
  {
    var e := b + rs[b].n;
    if n == rs[b].n then rs[b := Busy(rs, b, n)]
    else
      var r := rs[b := Busy(rs, b, n)][b + n := Run(rs[b].n - n, b, true, item, false)];
      if e in rs then r[e := rs[e].(prev := b + n)] else r
  }

  lemma TakeRun(rs: Runs, P: int, b: int, n: int, item: int, c: int)
    requires Partition(rs, P) && b in rs && rs[b].free && 1 <= n <= rs[b].n && c in Take(rs, b, n, item)
    ensures RunOk(Take(rs, b, n, item), P, c) == true
    ensures n < rs[b].n ==> b + n !in rs
  {
    assert RunOk(rs, P, b) == true;
    if b + n in rs { assert Apart(rs, b, b + n) == true; }
    if c in rs {
      assert RunOk(rs, P, c) == true;
      if c + rs[c].n in rs { assert RunOk(rs, P, c + rs[c].n) == true; }
    }
  }

  lemma TakeApart(rs: Runs, P: int, b: int, n: int, item: int, c: int, d: int)
    requires Partition(rs, P) && b in rs && rs[b].free && 1 <= n <= rs[b].n
    requires c in Take(rs, b, n, item) && d in Take(rs, b, n, item)
    ensures Apart(Take(rs, b, n, item), c, d) == true
  {
    assert RunOk(rs, P, b) == true;
    if c in rs && d in rs { assert Apart(rs, c, d) == true; }
    if c in rs { assert Apart(rs, c, b) == true && Apart(rs, b, c) == true; }
    if d in rs { assert Apart(rs, b, d) == true; }
  }

  lemma TakePartition(rs: Runs, P: int, b: int, n: int, item: int)
    requires Partition(rs, P) && b in rs && rs[b].free && 1 <= n <= rs[b].n
    ensures Partition(Take(rs, b, n, item), P) == true
    ensures n < rs[b].n ==> b + n !in rs
  {
    var r := Take(rs, b, n, item);
    assert b in r;
    TakeRun(rs, P, b, n, item, b);
    forall c | c in r ensures RunOk(r, P, c) == true { TakeRun(rs, P, b, n, item, c); }
    forall c, d | c in r && d in r ensures Apart(r, c, d) == true { TakeApart(rs, P, b, n, item, c, d); }
  }

  // ---------------------------------------------------------------------------------
  // Giving pages back
  // ---------------------------------------------------------------------------------

  /** First page of the free run that results from freeing b, and the page after its last. */
  function Lo(rs: Runs, b: int): int
    requires b in rs
  {
    if rs[b].prev in rs && rs[rs[b].prev].free then rs[b].prev else b
  }

  function Hi(rs: Runs, b: int): int
    requires b in rs
  {
    var e := b + rs[b].n;
    if e in rs && rs[e].free then e + rs[e].n else e
  }

  function Give(rs: Runs, b: int, item: int): Runs
    requires b in rs && Lo(rs, b) in rs
  {
    var lo, hi := Lo(rs, b), Hi(rs, b);
    var r := (map c | c in rs && !(lo < c < hi) :: rs[c])[lo := Run(hi - lo, rs[lo].prev, true, item, false)];
    if hi in rs then r[hi := rs[hi].(prev := lo)] else r
  }

  lemma LoFacts(rs: Runs, P: int, b: int)
    requires Partition(rs, P) && b in rs
    ensures var lo := Lo(rs, b);
            && lo in rs && 0 <= lo <= b && (lo != b ==> lo + rs[lo].n == b && rs[lo].free)
            && (rs[lo].prev in rs && lo != b ==> !rs[rs[lo].prev].free)
            && (rs[lo].prev in rs && lo == b ==> !rs[rs[lo].prev].free)
            && -1 !in rs
  {
    assert RunOk(rs, P, b) == true;
    assert -1 in rs ==> RunOk(rs, P, -1) == true;
    if b != 0 {
      var p := rs[b].prev;
      assert RunOk(rs, P, p) == true;
      if p != 0 { assert RunOk(rs, P, rs[p].prev) == true; }
    }
  }

  lemma HiFacts(rs: Runs, P: int, b: int)
    requires Partition(rs, P) && b in rs
    ensures b < b + rs[b].n <= Hi(rs, b) <= P
    ensures Hi(rs, b) < P ==> Hi(rs, b) in rs && !rs[Hi(rs, b)].free
  {
    assert RunOk(rs, P, b) == true;
    var e := b + rs[b].n;
    if e in rs { assert RunOk(rs, P, e) == true; }
  }

  lemma Inside(rs: Runs, P: int, b: int, c: int)
    requires Partition(rs, P) && b in rs && c in rs && Lo(rs, b) < c < Hi(rs, b)
    ensures c == b || (c == b + rs[b].n && rs[c].free)
  {
    LoFacts(rs, P, b);
    assert Apart(rs, b, c) == true && Apart(rs, c, b) == true && Apart(rs, Lo(rs, b), c) == true;
    assert RunOk(rs, P, c) == true;
    if b + rs[b].n in rs { assert Apart(rs, b + rs[b].n, c) == true; }
  }

  /** A run outside the freed range ends where it did, at or before the range, or starts behind it. */
  lemma Outside(rs: Runs, P: int, b: int, c: int)
    requires Partition(rs, P) && b in rs && c in rs && !(Lo(rs, b) <= c < Hi(rs, b))
    ensures c < Lo(rs, b) ==> c + rs[c].n <= Lo(rs, b)
    ensures c + rs[c].n in rs ==> !(Lo(rs, b) < c + rs[c].n < Hi(rs, b)) && c + rs[c].n != Hi(rs, b)
  {
    LoFacts(rs, P, b);
    HiFacts(rs, P, b);
    assert Apart(rs, c, Lo(rs, b)) == true && RunOk(rs, P, c) == true;
  }

  lemma GiveRun(rs: Runs, P: int, b: int, item: int, c: int)
    requires Partition(rs, P) && b in rs && !rs[b].free && Lo(rs, b) in rs && c in Give(rs, b, item)
    ensures RunOk(Give(rs, b, item), P, c) == true
  {
    var lo, hi := Lo(rs, b), Hi(rs, b);
    LoFacts(rs, P, b);
    HiFacts(rs, P, b);
    assert RunOk(rs, P, c) == true && RunOk(rs, P, lo) == true;
    if c != lo { Outside(rs, P, b, c); }
    if rs[c].prev in rs { GivePrev(rs, P, b, c); }
  }

  lemma GivePrev(rs: Runs, P: int, b: int, c: int)
    requires Partition(rs, P) && b in rs && c in rs && !(Lo(rs, b) < c < Hi(rs, b)) && rs[c].prev in rs
    ensures c != Hi(rs, b) ==> !(Lo(rs, b) <= rs[c].prev < Hi(rs, b))
    ensures rs[c].prev < c
  {
    LoFacts(rs, P, b);
    HiFacts(rs, P, b);
    var p := rs[c].prev;
    assert RunOk(rs, P, c) == true && RunOk(rs, P, p) == true && RunOk(rs, P, b) == true;
    if Lo(rs, b) < p < Hi(rs, b) { Inside(rs, P, b, p); }
    if b + rs[b].n in rs { assert RunOk(rs, P, b + rs[b].n) == true; }
    assert Apart(rs, Lo(rs, b), b) == true;
  }

  lemma GiveApart(rs: Runs, P: int, b: int, item: int, c: int, d: int)
    requires Partition(rs, P) && b in rs && !rs[b].free && Lo(rs, b) in rs && c in Give(rs, b, item)
    requires d in Give(rs, b, item)
    ensures Apart(Give(rs, b, item), c, d) == true
  {
    LoFacts(rs, P, b);
    HiFacts(rs, P, b);
    assert Apart(rs, c, d) == true;
    if c == Lo(rs, b) && c < d { assert Apart(rs, c, d) == true; }
  }

  lemma GivePartition(rs: Runs, P: int, b: int, item: int)
    requires Partition(rs, P) && b in rs && !rs[b].free
    ensures Lo(rs, b) in rs && Partition(Give(rs, b, item), P) == true
  {
    LoFacts(rs, P, b);
    var r := Give(rs, b, item);
    forall c | c in r ensures RunOk(r, P, c) == true { GiveRun(rs, P, b, item, c); }
    forall c, d | c in r && d in r ensures Apart(r, c, d) == true { GiveApart(rs, P, b, item, c, d); }
    HiFacts(rs, P, b);
  }

  /** Freeing a fresh allocation restores the run it came from, and with it all runs. */
  lemma TakeThenGive(rs: Runs, P: int, b: int, n: int, item: int, item': int)
    requires Partition(rs, P) && b in rs && rs[b].free && 1 <= n <= rs[b].n
    ensures var r := Take(rs, b, n, item);
            b in r && Lo(r, b) in r && Give(r, b, item') == rs[b := Run(rs[b].n, rs[b].prev, true, item', false)]
  {
    var r := Take(rs, b, n, item);
    TakePartition(rs, P, b, n, item);
    TakeNeighbours(rs, P, b, n, item);
    var e := b + rs[b].n;
    forall c | c in rs ensures !(b < c < e) { assert Apart(rs, b, c) == true; }
  }

  /** The run before a fresh allocation is not free; the one behind it is what is left. */
  lemma TakeNeighbours(rs: Runs, P: int, b: int, n: int, item: int)
    requires Partition(rs, P) && b in rs && rs[b].free && 1 <= n <= rs[b].n
    ensures var r := Take(rs, b, n, item);
            b in r && Lo(r, b) == b && Hi(r, b) == b + rs[b].n
    ensures var e := b + rs[b].n; e in rs ==> rs[e].prev == b && !rs[e].free
  {
    var p, e := rs[b].prev, b + rs[b].n;
    assert RunOk(rs, P, b) == true;
    assert -1 in rs ==> RunOk(rs, P, -1) == true;
    if p in rs { assert RunOk(rs, P, p) == true; }
    if e in rs { assert RunOk(rs, P, e) == true; }
    if b + n in rs { assert Apart(rs, b, b + n) == true; }
  }

  // ---------------------------------------------------------------------------------
  // The free runs are determined by the free pages
  // ---------------------------------------------------------------------------------

  ghost predicate InRun(rs: Runs, b: int, x: int)
  {
    b in rs && b <= x < b + rs[b].n
  }

  ghost predicate FreePage(rs: Runs, x: int)
  {
    exists b :: InRun(rs, b, x) && rs[b].free
  }

  lemma {:induction false} CoverFrom(rs: Runs, P: int, b: int, x: int) returns (c: int)
    requires Partition(rs, P) && b in rs && b <= x < P
    ensures InRun(rs, c, x) == true
    decreases P - b
  {
    assert RunOk(rs, P, b) == true;
    if x < b + rs[b].n { c := b; } else { c := CoverFrom(rs, P, b + rs[b].n, x); }
  }

  lemma OneRun(rs: Runs, P: int, b: int, c: int, x: int)
    requires Partition(rs, P) && InRun(rs, b, x) && InRun(rs, c, x)
    ensures b == c
  {
    assert Apart(rs, b, c) == true && Apart(rs, c, b) == true;
  }

  /** The pages next to a free run are not free. */
  lemma FreeRunMaximal(rs: Runs, P: int, b: int)
    requires Partition(rs, P) && b in rs && rs[b].free
    ensures !FreePage(rs, b - 1) && !FreePage(rs, b + rs[b].n)
  {
    assert RunOk(rs, P, b) == true;
    forall c | InRun(rs, c, b - 1) ensures !rs[c].free {
      assert RunOk(rs, P, c) == true && Apart(rs, c, b) == true;
    }
    forall c | InRun(rs, c, b + rs[b].n) ensures !rs[c].free {
      assert RunOk(rs, P, c) == true;
      if b + rs[b].n in rs { assert RunOk(rs, P, b + rs[b].n) == true; OneRun(rs, P, b + rs[b].n, c, b + rs[b].n); }
    }
  }

  /** If two partitions have the same free pages, a free run of one starts a free run of the other ... */
  lemma SameStart(rs: Runs, qs: Runs, P: int, b: int)
    requires Partition(rs, P) && Partition(qs, P) && b in rs && rs[b].free
    requires forall x :: FreePage(rs, x) <==> FreePage(qs, x)
    ensures b in qs && qs[b].free
  {
    assert RunOk(rs, P, b) == true;
    assert InRun(rs, b, b);
    assert FreePage(rs, b);
    var c :| InRun(qs, c, b) && qs[c].free;
    assert InRun(qs, c, b - 1) || c == b;
    FreeRunMaximal(rs, P, b);
  }

  lemma NotLonger(rs: Runs, qs: Runs, P: int, b: int)
    requires Partition(rs, P) && Partition(qs, P) && b in rs && rs[b].free && b in qs && qs[b].free
    requires forall x :: FreePage(rs, x) <==> FreePage(qs, x)
    ensures rs[b].n <= qs[b].n
  {
    assert RunOk(qs, P, b) == true;
    assert InRun(rs, b, b + qs[b].n) || rs[b].n <= qs[b].n;
    FreeRunMaximal(qs, P, b);
  }

  /** ... of the same length: the free runs are determined by the free pages. */
  lemma SameFreeRuns(rs: Runs, qs: Runs, P: int, b: int)
    requires Partition(rs, P) && Partition(qs, P)
    requires forall x :: FreePage(rs, x) <==> FreePage(qs, x)
    ensures (b in rs && rs[b].free) <==> (b in qs && qs[b].free)
    ensures b in rs && rs[b].free ==> rs[b].n == qs[b].n
  {
    if b in rs && rs[b].free {
      SameStart(rs, qs, P, b);
      NotLonger(rs, qs, P, b);
      NotLonger(qs, rs, P, b);
    } else if b in qs && qs[b].free {
      SameStart(qs, rs, P, b);
    }
  }

  // ---------------------------------------------------------------------------------
  // Tags
  // ---------------------------------------------------------------------------------

  /** A tag word: VMM_REG_BUSY_FLAG and VMM_REG_ALLOC_FLAG, its two low bits, and the word without them. That is the
      number of pages shifted by VMM_REG_SIZE_SHIFT, or the address of a list item, which is a multiple of 32. */
  datatype Tag = Tag(word: int, busy: bool, alloc: bool)

  const ZERO := Tag(0, false, false)

  /** A busy run's first page holds its length and flags, a free run's first and last page the address of its list
      item. */
  function HeadTag(k: Run): Tag
  {
    if k.free then Tag(k.item, false, false) else Tag(k.n * 4096, true, k.alloc)
  }

  function TailTag(k: Run): Tag
  {
    if k.free then Tag(k.item, false, false) else Tag(0, true, false)
  }

  ghost predicate TagOk(T: seq<Tag>, rs: Runs, b: int)
    requires b in rs
  {
    var k := rs[b];
    && 0 <= b && 1 <= k.n && b + k.n < |T|
    && T[b] == HeadTag(k)
    && (k.n > 1 ==> T[b + k.n - 1] == TailTag(k))
    && (forall i :: b < i < b + k.n - 1 ==> T[i] == ZERO)
    && (k.free ==> k.item > 0 && k.item % 32 == 0)
  }

  ghost predicate TagsOk(T: seq<Tag>, rs: Runs, P: int)
  {
    && |T| == P + 1 && P >= 0 && T[P] == ZERO
    && (forall b {:trigger TagOk(T, rs, b)} :: b in rs ==> TagOk(T, rs, b))
  }

  /** The tag of a page tells whether a busy run starts there. */
  lemma TagTellsBusyBase(T: seq<Tag>, rs: Runs, P: int, x: int)
    requires Partition(rs, P) && TagsOk(T, rs, P) && 0 <= x < P
    ensures T[x].busy && T[x].word / 4096 != 0 <==> x in rs && !rs[x].free
    ensures x in rs && !rs[x].free ==> T[x].word / 4096 == rs[x].n && T[x].alloc == rs[x].alloc
  {
    var b := CoverFrom(rs, P, 0, x);
    assert TagOk(T, rs, b) == true;
    if x in rs {
      assert RunOk(rs, P, x) == true && InRun(rs, x, x);
      OneRun(rs, P, b, x, x);
    }
  }

  /** The tags `addFreeRegion` writes. */
  function FreeTags(T: seq<Tag>, base: int, n: int, item: int): (r: seq<Tag>)
    requires 0 <= base && 1 <= n && base + n <= |T|
    ensures |r| == |T|
  {
    var tag := Tag(item, false, false);
    if n > 1 then T[base := tag][base + n - 1 := tag] else T[base := tag]
  }

  /** The tags `setBusyRegion` writes. */
  function BusyTags(T: seq<Tag>, base: int, n: int): (r: seq<Tag>)
    requires 0 <= base && 1 <= n && base + n <= |T|
    ensures |r| == |T|
  {
    var tag := Tag(n * 4096, true, false);
    if n > 1 then T[base := tag][base + n - 1 := Tag(0, true, false)] else T[base := tag]
  }

  lemma TakeTags(T: seq<Tag>, rs: Runs, P: int, b: int, n: int, item: int)
    requires Partition(rs, P) && TagsOk(T, rs, P) && b in rs && rs[b].free && 1 <= n <= rs[b].n
    requires n < rs[b].n ==> item > 0 && item % 32 == 0
    ensures b + rs[b].n <= P && 0 <= b
    ensures var T1 := BusyTags(T, b, n);
            TagsOk(if n < rs[b].n then FreeTags(T1, b + n, rs[b].n - n, item) else T1, Take(rs, b, n, item), P)
  {
    assert RunOk(rs, P, b) == true && TagOk(T, rs, b) == true;
    var T1 := BusyTags(T, b, n);
    var T2 := if n < rs[b].n then FreeTags(T1, b + n, rs[b].n - n, item) else T1;
    var r := Take(rs, b, n, item);
    forall c | c in r ensures TagOk(T2, r, c) == true {
      if c in rs && c != b {
        assert TagOk(T, rs, c) == true && RunOk(rs, P, c) == true;
        assert Apart(rs, b, c) == true && Apart(rs, c, b) == true;
      }
    }
  }

  /** Busy run b is marked as having page-table entries to release. */
  function Flagged(rs: Runs, b: int): Runs
    requires b in rs
  {
    rs[b := rs[b].(alloc := true)]
  }

  lemma FlaggedPartition(rs: Runs, P: int, b: int)
    requires Partition(rs, P) && b in rs
    ensures Partition(Flagged(rs, b), P) == true
  {
    var r := Flagged(rs, b);
    forall c | c in r ensures RunOk(r, P, c) == true { assert RunOk(rs, P, c) == true; }
    forall c, d | c in r && d in r ensures Apart(r, c, d) == true { assert Apart(rs, c, d) == true; }
  }

  lemma FlaggedTags(T: seq<Tag>, rs: Runs, P: int, b: int)
    requires Partition(rs, P) && TagsOk(T, rs, P) && b in rs && !rs[b].free && !rs[b].alloc
    ensures 0 <= b < |T| && TagsOk(T[b := T[b].(alloc := true)], Flagged(rs, b), P) == true
  {
    assert TagOk(T, rs, b) == true;
    var r := Flagged(rs, b);
    forall c | c in r ensures TagOk(T[b := T[b].(alloc := true)], r, c) == true {
      assert TagOk(T, rs, c) == true && Apart(rs, b, c) == true && Apart(rs, c, b) == true;
    }
    assert RunOk(rs, P, b) == true;
  }

  /** The tags `freePages` clears when it takes in the run before, and the run behind. */
  function ClearPrev(T: seq<Tag>, b: int, m: int): seq<Tag>
    requires 0 < b < |T|
  {
    if m > 1 then T[b := ZERO][b - 1 := ZERO] else T[b := ZERO]
  }

  function ClearNext(T: seq<Tag>, e: int): seq<Tag>
    requires 0 < e < |T|
  {
    T[e - 1 := ZERO][e := ZERO]
  }

  /** All tags `freePages` writes for busy run b. */
  function GiveTagsOf(T: seq<Tag>, rs: Runs, b: int, item: int): seq<Tag>
    requires b in rs && 0 <= Lo(rs, b) <= b < b + rs[b].n <= Hi(rs, b) < |T|
    requires Lo(rs, b) < b ==> Lo(rs, b) in rs
    requires b + rs[b].n < Hi(rs, b) ==> b + rs[b].n in rs
  {
    var T1 := if Lo(rs, b) < b then ClearPrev(T, b, rs[Lo(rs, b)].n) else T;
    var T2 := if b + rs[b].n < Hi(rs, b) then ClearNext(T1, b + rs[b].n) else T1;
    FreeTags(T2, Lo(rs, b), Hi(rs, b) - Lo(rs, b), item)
  }

  lemma GiveTags(T: seq<Tag>, rs: Runs, P: int, b: int, item: int)
    requires Partition(rs, P) && TagsOk(T, rs, P) && b in rs && !rs[b].free && item > 0 && item % 32 == 0
    ensures Lo(rs, b) in rs && 0 <= Lo(rs, b) <= b < b + rs[b].n <= Hi(rs, b) <= P
    ensures TagsOk(GiveTagsOf(T, rs, b, item), Give(rs, b, item), P) == true
  {
    LoFacts(rs, P, b);
    HiFacts(rs, P, b);
    var T2 := GiveTagsOf(T, rs, b, item);
    var r := Give(rs, b, item);
    forall c | c in r ensures TagOk(T2, r, c) == true {
      if c == Lo(rs, b) {
        GiveTagsMerged(T, rs, P, b, item);
      } else {
        GiveTagsOther(T, rs, P, b, item, c);
      }
    }
  }

  lemma GiveTagsOther(T: seq<Tag>, rs: Runs, P: int, b: int, item: int, c: int)
    requires Partition(rs, P) && TagsOk(T, rs, P) && b in rs && !rs[b].free && c in rs && !(Lo(rs, b) <= c < Hi(rs, b))
    requires Lo(rs, b) in rs && 0 <= Lo(rs, b) <= b < b + rs[b].n <= Hi(rs, b) <= P
    ensures TagOk(GiveTagsOf(T, rs, b, item), Give(rs, b, item), c)
  {
    LoFacts(rs, P, b);
    assert TagOk(T, rs, c) == true && RunOk(rs, P, c) == true;
    Outside(rs, P, b, c);
  }

  lemma GiveTagsMerged(T: seq<Tag>, rs: Runs, P: int, b: int, item: int)
    requires Partition(rs, P) && TagsOk(T, rs, P) && b in rs && !rs[b].free && item > 0 && item % 32 == 0
    requires Lo(rs, b) in rs && 0 <= Lo(rs, b) <= b < b + rs[b].n <= Hi(rs, b) <= P
    ensures TagOk(GiveTagsOf(T, rs, b, item), Give(rs, b, item), Lo(rs, b)) == true
  {
    LoFacts(rs, P, b);
    assert TagOk(T, rs, b) == true && TagOk(T, rs, Lo(rs, b)) == true;
    var e := b + rs[b].n;
    if e in rs { assert TagOk(T, rs, e) == true; }
  }
}
