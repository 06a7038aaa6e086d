/** The page allocator of kernel/VirtualMemoryManager.cpp: a tag table, bucketed free lists
    with counters, and list items taken from a bump pointer and recycled through a pool. */
module VirtualMemory {
  import opened FreeLists
  import opened PageRuns

  /** Number of buckets: the bits of a size. */
  const BUCKETS := 64

  /** g_maxAllocIterations. */
  const MAX_ITERATIONS := 32

  /** g_invalidPageOffset. */
  const INVALID := 0xFFFF_FFFF_FFFF_FFFF

  /** The fields of all `VmmFreeMemoryListItem`s, by item address. */
  datatype Items = Items(next: map<int, int>, prev: map<int, int>, pages: map<int, int>, base: map<int, int>)

  /** The state of the allocator; `lists` and `pool` are history: the lists that heads and links
      spell out, and the recycled items from the bottom of the pool to its top. */
  datatype Store = Store(
    tags: seq<Tag>,
    items: Items,
    heads: seq<int>,
    counts: seq<int>,
    poolHead: int,
    start: int,
    lists: seq<seq<int>>,
    pool: seq<int>)

  function Bucket(n: int): nat { if n > 0 then Log2(n) else 0 }

  // ---------------------------------------------------------------------------------
  // Items
  // ---------------------------------------------------------------------------------

  /** An item that was taken from the bump pointer, which started at `first`. */
  ghost predicate Taken(s: Store, first: int, x: int)
  {
    first <= x < s.start && x % 32 == 0
  }

  ghost predicate PoolNode(s: Store, first: int, cls: map<int, nat>, i: nat)
    requires i < |s.pool|
  {
    && Get(s.items.next, s.pool[i]) == (if i == 0 then NULL else s.pool[i - 1])
    && s.pool[i] !in cls && Taken(s, first, s.pool[i])
  }

  ghost predicate PoolOk(s: Store, first: int, cls: map<int, nat>)
  {
    && s.poolHead == (if s.pool == [] then NULL else s.pool[|s.pool| - 1])
    && (forall i: nat {:trigger PoolNode(s, first, cls, i)} :: i < |s.pool| ==> PoolNode(s, first, cls, i))
    && FreeLists.Distinct(s.pool)
  }

  ghost predicate CountsOk(s: Store)
  {
    && |s.heads| == |s.counts| == |s.lists| == BUCKETS
    && (forall k :: 0 <= k < BUCKETS ==> s.counts[k] == |s.lists[k]|)
  }

  /** Lists, counters, pool and bump pointer agree: the items of cls are listed by class, all
      other items taken so far are in the pool. */
  ghost predicate Stocked(s: Store, first: int, cls: map<int, nat>)
  {
    && 0 < first <= s.start && first % 32 == 0 && s.start % 32 == 0
    && CountsOk(s)
    && Buckets(s.items.next, s.items.prev, s.heads, s.lists, cls)
    && PoolOk(s, first, cls)
    && (forall x {:trigger Taken(s, first, x)} :: x in cls ==> Taken(s, first, x))
    && s.start == first + 32 * (|cls| + |s.pool|)
  }

  // Unlinking an item puts it on top of the pool

  function Unlink(s: Store, k: nat, x: int): Store
    requires k < |s.heads| == |s.counts| == |s.lists|
  {
    var nx := DeleteNext(s.items.next, s.items.prev, s.heads[k], x);
    s.(items := s.items.(next := nx[x := s.poolHead],
                         prev := DeletePrev(s.items.next, s.items.prev, s.heads[k], x)),
       heads := s.heads[k := DeleteHead(s.items.next, s.heads[k], x)],
       counts := s.counts[k := s.counts[k] - 1],
       lists := s.lists[k := Without(s.lists[k], x)],
       poolHead := x,
       pool := s.pool + [x])
  }

  lemma UnlinkBuckets(s: Store, first: int, cls: map<int, nat>, x: int)
    requires Stocked(s, first, cls) == true && x in cls
    ensures cls[x] < BUCKETS
    ensures var s' := Unlink(s, cls[x], x);
            && Buckets(s'.items.next, s'.items.prev, s'.heads, s'.lists, cls - {x})
            && |s'.lists[cls[x]]| == |s.lists[cls[x]]| - 1
            && (forall y :: y !in cls ==> Agree(s.items.next, s'.items.next, y))
  {
    var k := cls[x];
    var s' := Unlink(s, k, x);
    var i := Position(s.items.next, s.items.prev, s.heads, s.lists, cls, x);
    Delete(s.items.next, s.items.prev, s.heads, s.lists, cls, x);
    DeleteTouches(s.items.next, s.items.prev, s.heads, s.lists, cls, x, i);
    var nx := DeleteNext(s.items.next, s.items.prev, s.heads[k], x);
    forall y | y in cls - {x} ensures Agree(nx, s'.items.next, y) && Agree(s'.items.prev, s'.items.prev, y) {}
    BucketsFrame(nx, s'.items.prev, s'.items.next, s'.items.prev, s'.heads, s'.lists, cls - {x});
  }

  lemma UnlinkStocked(s: Store, first: int, cls: map<int, nat>, x: int)
    requires Stocked(s, first, cls) == true && x in cls
    ensures cls[x] < BUCKETS && Stocked(Unlink(s, cls[x], x), first, cls - {x}) == true
  {
    UnlinkBuckets(s, first, cls, x);
    var s' := Unlink(s, cls[x], x);
    assert Taken(s, first, x) == true;
    forall i: nat | i < |s'.pool| ensures PoolNode(s', first, cls - {x}, i) == true {
      if i < |s.pool| { assert PoolNode(s, first, cls, i) == true; }
    }
    forall y | y in cls - {x} ensures Taken(s', first, y) == true { assert Taken(s, first, y) == true; }
    assert (cls - {x}).Keys == cls.Keys - {x};
    forall i, j | 0 <= i < j < |s'.pool| ensures s'.pool[i] != s'.pool[j] {
      assert PoolNode(s, first, cls, i) == true;
    }
  }

  // Listing a run takes an item from the pool, or else from the bump pointer

  function NextItem(s: Store): int { if s.poolHead == NULL then s.start else s.poolHead }

  /** The store without that item. */
  function Withdraw(s: Store): Store
  {
    if s.poolHead == NULL then s.(start := s.start + 32)
    else s.(poolHead := Get(s.items.next, s.poolHead), pool := if s.pool == [] then [] else s.pool[..|s.pool| - 1])
  }

  function Enlist(s: Store, base: int, n: int): Store
    requires Bucket(n) < |s.heads| == |s.counts| == |s.lists|
  {
    var x, k, w := NextItem(s), Bucket(n), Withdraw(s);
    w.(items := Items(InsertNext(s.items.next, s.heads[k], x), InsertPrev(s.items.prev[x := NULL], s.heads[k], x),
                      s.items.pages[x := n], s.items.base[x := base]),
       heads := s.heads[k := x],
       counts := s.counts[k := s.counts[k] + 1],
       lists := s.lists[k := [x] + s.lists[k]])
  }

  /** The store after `addFreeRegion`. */
  function Listed(s: Store, base: int, n: int): Store
    requires Bucket(n) < |s.heads| == |s.counts| == |s.lists| && 0 <= base && 1 <= n && base + n <= |s.tags|
  {
    Enlist(s, base, n).(tags := FreeTags(s.tags, base, n, NextItem(s)))
  }

  lemma NextItemNew(s: Store, first: int, cls: map<int, nat>)
    requires Stocked(s, first, cls) == true
    ensures NextItem(s) !in cls && NextItem(s) > 0 && NextItem(s) % 32 == 0
    ensures s.poolHead == NULL <==> s.pool == []
    ensures s.poolHead != NULL ==> NextItem(s) == s.pool[|s.pool| - 1]
    ensures Taken(Withdraw(s), first, NextItem(s)) == true
  {
    if s.pool != [] { assert PoolNode(s, first, cls, |s.pool| - 1) == true; }
    assert s.start in cls ==> Taken(s, first, s.start) == true;
  }

  lemma EnlistStocked(s: Store, first: int, cls: map<int, nat>, base: int, n: int)
    requires Stocked(s, first, cls) == true && n > 0 && Bucket(n) < BUCKETS
    ensures Stocked(Enlist(s, base, n), first, cls[NextItem(s) := Bucket(n)]) == true
  {
    NextItemNew(s, first, cls);
    var x, k, s', cls' := NextItem(s), Bucket(n), Enlist(s, base, n), cls[NextItem(s) := Bucket(n)];
    BucketsFrame(s.items.next, s.items.prev, s.items.next, s.items.prev[x := NULL], s.heads, s.lists, cls);
    Insert(s.items.next, s.items.prev[x := NULL], s.heads, s.lists, cls, x, k);
    EnlistPool(s, first, cls, base, n);
    forall y | y in cls' ensures Taken(s', first, y) == true {
      if y != x { assert Taken(s, first, y) == true; }
    }
    assert cls'.Keys == cls.Keys + {x};
  }

  lemma EnlistPool(s: Store, first: int, cls: map<int, nat>, base: int, n: int)
    requires Stocked(s, first, cls) == true && n > 0 && Bucket(n) < BUCKETS
    ensures PoolOk(Enlist(s, base, n), first, cls[NextItem(s) := Bucket(n)]) == true
  {
    NextItemNew(s, first, cls);
    var s', cls' := Enlist(s, base, n), cls[NextItem(s) := Bucket(n)];
    if s.pool != [] { assert PoolNode(s, first, cls, |s.pool| - 1) == true; }
    forall i: nat | i < |s'.pool| ensures PoolNode(s', first, cls', i) == true {
      assert PoolNode(s, first, cls, i) == true;
    }
  }

  // ---------------------------------------------------------------------------------
  // Runs, tags and items together
  // ---------------------------------------------------------------------------------

  /** The bucket of every listed item; `owner` maps an item to the first page of its run. */
  ghost function Classes(rs: Runs, owner: map<int, int>): map<int, nat>
  {
    map x | x in owner :: if owner[x] in rs then Bucket(rs[owner[x]].n) else 0
  }

  /** A free run and its item describe each other. */
  ghost predicate ItemOk(items: Items, rs: Runs, owner: map<int, int>, b: int)
    requires b in rs
  {
    rs[b].free ==>
      && rs[b].item in owner && owner[rs[b].item] == b
      && Get(items.pages, rs[b].item) == rs[b].n && Get(items.base, rs[b].item) == b
  }

  ghost predicate OwnerOk(rs: Runs, owner: map<int, int>, x: int)
    requires x in owner
  {
    owner[x] in rs && rs[owner[x]].free && rs[owner[x]].item == x
  }

  ghost predicate Described(items: Items, rs: Runs, owner: map<int, int>)
  {
    && (forall b {:trigger ItemOk(items, rs, owner, b)} :: b in rs ==> ItemOk(items, rs, owner, b))
    && (forall x {:trigger OwnerOk(rs, owner, x)} :: x in owner ==> OwnerOk(rs, owner, x))
  }

  ghost predicate Consistent(s: Store, first: int, rs: Runs, owner: map<int, int>, P: int)
  {
    && 0 <= P < INVALID && Partition(rs, P) && TagsOk(s.tags, rs, P)
    && Described(s.items, rs, owner)
    && Stocked(s, first, Classes(rs, owner))
  }

  /** Every list item is the item of a free run of the bucket's size. */
  lemma ListedRun(s: Store, first: int, rs: Runs, owner: map<int, int>, P: int, k: nat, i: nat)
    requires Consistent(s, first, rs, owner, P) == true && k < BUCKETS && i < |s.lists[k]|
    ensures var x := s.lists[k][i];
            && x != NULL && x in owner && owner[x] in rs && rs[owner[x]].free && rs[owner[x]].item == x
            && rs[owner[x]].n >= 1 && Bucket(rs[owner[x]].n) == k
            && Get(s.items.pages, x) == rs[owner[x]].n && Get(s.items.base, x) == owner[x]
            && Get(s.items.next, x) == (if i + 1 < |s.lists[k]| then s.lists[k][i + 1] else NULL)
  {
    var cls := Classes(rs, owner);
    assert BucketOk(s.items.next, s.items.prev, s.heads, s.lists, cls, k) == true;
    assert NodeOk(s.items.next, s.items.prev, s.lists[k], i) == true;
    var x := s.lists[k][i];
    assert x in cls;
    assert OwnerOk(rs, owner, x) == true;
    assert ItemOk(s.items, rs, owner, owner[x]) == true && RunOk(rs, P, owner[x]) == true;
  }

  /** Every free run is in the list of its bucket. */
  lemma RunListed(s: Store, first: int, rs: Runs, owner: map<int, int>, P: int, b: int)
    requires Consistent(s, first, rs, owner, P) == true && b in rs && rs[b].free
    ensures Bucket(rs[b].n) < BUCKETS && |s.lists| == BUCKETS && rs[b].item in s.lists[Bucket(rs[b].n)]
  {
    var cls := Classes(rs, owner);
    assert ItemOk(s.items, rs, owner, b) == true;
    var i := Position(s.items.next, s.items.prev, s.heads, s.lists, cls, rs[b].item);
  }

  // Taking pages

  lemma TakeClasses(rs: Runs, owner: map<int, int>, P: int, items: Items, b: int, n: int, item: int)
    requires Partition(rs, P) && Described(items, rs, owner) && b in rs && rs[b].free && 1 <= n <= rs[b].n
    requires item !in owner || item == rs[b].item
    ensures var x := rs[b].item;
            if n == rs[b].n then
              Classes(Take(rs, b, n, item), owner - {x}) == Classes(rs, owner) - {x}
            else
              Classes(Take(rs, b, n, item), (owner - {x})[item := b + n]) ==
              (Classes(rs, owner) - {x})[item := Bucket(rs[b].n - n)]
  {
    assert ItemOk(items, rs, owner, b) == true;
    TakePartition(rs, P, b, n, item);
    var r := Take(rs, b, n, item);
    forall y | y in owner && y != rs[b].item ensures owner[y] in rs && owner[y] in r
      && r[owner[y]].n == rs[owner[y]].n {
      assert OwnerOk(rs, owner, y) == true;
    }
  }

  lemma TakeDescribed(items: Items, items': Items, rs: Runs, owner: map<int, int>, P: int, b: int, n: int, item: int)
    requires Partition(rs, P) && Described(items, rs, owner) && b in rs && rs[b].free && 1 <= n <= rs[b].n
    requires item !in owner || item == rs[b].item
    requires n < rs[b].n ==> items'.pages == items.pages[item := rs[b].n - n]
                             && items'.base == items.base[item := b + n]
    requires n == rs[b].n ==> items'.pages == items.pages && items'.base == items.base
    ensures var owner' := if n == rs[b].n then owner - {rs[b].item} else (owner - {rs[b].item})[item := b + n];
            Described(items', Take(rs, b, n, item), owner')
  {
    var r := Take(rs, b, n, item);
    var owner' := if n == rs[b].n then owner - {rs[b].item} else (owner - {rs[b].item})[item := b + n];
    assert ItemOk(items, rs, owner, b) == true && RunOk(rs, P, b) == true;
    TakePartition(rs, P, b, n, item);
    forall c | c in r ensures ItemOk(items', r, owner', c) == true {
      if c in rs { assert ItemOk(items, rs, owner, c) == true; }
    }
    forall y | y in owner' ensures OwnerOk(r, owner', y) == true {
      if y in owner && y != item { assert OwnerOk(rs, owner, y) == true; }
    }
  }

  lemma TakeFacts(s: Store, first: int, rs: Runs, owner: map<int, int>, P: int, b: int, n: int)
    requires Consistent(s, first, rs, owner, P) == true && b in rs && rs[b].free && 1 <= n <= rs[b].n
    ensures 0 <= b && b + rs[b].n <= P < |s.tags|
    ensures |s.heads| == |s.counts| == |s.lists| == BUCKETS && Bucket(rs[b].n) < BUCKETS
    ensures Bucket(rs[b].n - n) < BUCKETS
    ensures rs[b].item in Classes(rs, owner) && Classes(rs, owner)[rs[b].item] == Bucket(rs[b].n)
    ensures rs[b].item != NULL
  {
    assert RunOk(rs, P, b) == true && ItemOk(s.items, rs, owner, b) == true && TagOk(s.tags, rs, b) == true;
    RunListed(s, first, rs, owner, P, b);
    if n < rs[b].n { Log2Order(rs[b].n - n, rs[b].n); }
  }

  ghost function TakeOwner(rs: Runs, owner: map<int, int>, b: int, n: int): map<int, int>
    requires b in rs
  {
    if n == rs[b].n then owner - {rs[b].item} else (owner - {rs[b].item})[rs[b].item := b + n]
  }

  /** The tags and items of s' are those of s after n of the m pages at b were taken, and the rest listed under item
      x. */
  ghost predicate WrittenFor(s: Store, s': Store, b: int, m: int, n: int, x: int)
  {
    && 0 <= b && 1 <= n <= m && b + m < |s.tags|
    && var T1 := BusyTags(s.tags, b, n);
       if n < m then
         && s'.tags == FreeTags(T1, b + n, m - n, x)
         && s'.items.pages == s.items.pages[x := m - n] && s'.items.base == s.items.base[x := b + n]
       else s'.tags == T1 && s'.items.pages == s.items.pages && s'.items.base == s.items.base
  }

  /** Allocating pages from a free run keeps everything in agreement, if the lists and tags were
      updated for it; the rest, if any, is described by `item`. */
  lemma TakeConsistent(s: Store, s': Store, first: int, rs: Runs, owner: map<int, int>, P: int, b: int, n: int,
                       item: int)
    requires Consistent(s, first, rs, owner, P) == true && b in rs && rs[b].free && 1 <= n <= rs[b].n
    requires item == rs[b].item
    requires Stocked(s', first, Classes(Take(rs, b, n, item), TakeOwner(rs, owner, b, n))) == true
    requires WrittenFor(s, s', b, rs[b].n, n, item) == true
    ensures Consistent(s', first, Take(rs, b, n, item), TakeOwner(rs, owner, b, n), P) == true
  {
    assert TagOk(s.tags, rs, b) == true;
    TakePartition(rs, P, b, n, item);
    TakeTags(s.tags, rs, P, b, n, item);
    TakeDescribed(s.items, s'.items, rs, owner, P, b, n, item);
  }

  /** Tags are no concern of the lists. */
  lemma StockedTags(s: Store, s': Store, first: int, cls: map<int, nat>)
    requires Stocked(s, first, cls) == true && s' == s.(tags := s'.tags)
    ensures Stocked(s', first, cls) == true
  {
    forall i: nat | i < |s'.pool| ensures PoolNode(s', first, cls, i) == true {
      assert PoolNode(s, first, cls, i) == true;
    }
    forall x | x in cls ensures Taken(s', first, x) == true { assert Taken(s, first, x) == true; }
  }

  // Giving pages back

  /** The item of the free run before b, and of the one behind it; 0 if there is none. */
  function PrevItem(rs: Runs, b: int): int
    requires b in rs
  {
    if Lo(rs, b) != b && Lo(rs, b) in rs then rs[Lo(rs, b)].item else NULL
  }

  function NextRunItem(rs: Runs, b: int): int
    requires b in rs
  {
    var e := b + rs[b].n;
    if e in rs && rs[e].free then rs[e].item else NULL
  }

  ghost function GiveOwner(rs: Runs, owner: map<int, int>, b: int, item: int): map<int, int>
    requires b in rs
  {
    (owner - {PrevItem(rs, b), NextRunItem(rs, b)})[item := Lo(rs, b)]
  }

  lemma GiveClasses(rs: Runs, owner: map<int, int>, P: int, items: Items, b: int, item: int)
    requires Partition(rs, P) && Described(items, rs, owner) && b in rs && !rs[b].free && NULL !in owner
    requires item !in owner || item == PrevItem(rs, b) || item == NextRunItem(rs, b)
    ensures Lo(rs, b) in rs
    ensures Classes(Give(rs, b, item), GiveOwner(rs, owner, b, item)) ==
              (Classes(rs, owner) - {PrevItem(rs, b), NextRunItem(rs, b)})[item := Bucket(Hi(rs, b) - Lo(rs, b))]
  {
    GivePartition(rs, P, b, item);
    LoFacts(rs, P, b);
    HiFacts(rs, P, b);
    var r := Give(rs, b, item);
    forall y | y in owner && y != PrevItem(rs, b) && y != NextRunItem(rs, b)
      ensures owner[y] in rs && owner[y] in r && owner[y] != Lo(rs, b) && r[owner[y]].n == rs[owner[y]].n
    {
      OtherItemStays(items, rs, owner, P, b, y);
    }
  }

  /** A listed run that is not a neighbour of the freed one stays as it is. */
  lemma OtherItemStays(items: Items, rs: Runs, owner: map<int, int>, P: int, b: int, y: int)
    requires Partition(rs, P) && Described(items, rs, owner) && b in rs && !rs[b].free
    requires y in owner && y != PrevItem(rs, b) && y != NextRunItem(rs, b)
    ensures owner[y] in rs && rs[owner[y]].free && rs[owner[y]].item == y
    ensures owner[y] != Lo(rs, b) && !(Lo(rs, b) < owner[y] < Hi(rs, b))
  {
    LoFacts(rs, P, b);
    assert OwnerOk(rs, owner, y) == true;
    if Lo(rs, b) < owner[y] < Hi(rs, b) { Inside(rs, P, b, owner[y]); }
  }

  lemma GiveItemOk(items: Items, items': Items, rs: Runs, owner: map<int, int>, P: int, b: int, item: int, c: int)
    requires Partition(rs, P) && Described(items, rs, owner) && b in rs && !rs[b].free && NULL !in owner
    requires Lo(rs, b) in rs
    requires item !in owner || item == PrevItem(rs, b) || item == NextRunItem(rs, b)
    requires items'.pages == items.pages[item := Hi(rs, b) - Lo(rs, b)] && items'.base == items.base[item := Lo(rs, b)]
    requires c in Give(rs, b, item)
    ensures ItemOk(items', Give(rs, b, item), GiveOwner(rs, owner, b, item), c) == true
  {
    HiFacts(rs, P, b);
    LoFacts(rs, P, b);
    if c != Lo(rs, b) {
      assert ItemOk(items, rs, owner, c) == true;
      GiveKeepsItem(items, rs, owner, P, b, c);
    }
  }

  lemma GiveOwnerOk(items: Items, rs: Runs, owner: map<int, int>, P: int, b: int, item: int, y: int)
    requires Partition(rs, P) && Described(items, rs, owner) && b in rs && !rs[b].free && NULL !in owner
    requires Lo(rs, b) in rs
    requires item !in owner || item == PrevItem(rs, b) || item == NextRunItem(rs, b)
    requires y in GiveOwner(rs, owner, b, item)
    ensures OwnerOk(Give(rs, b, item), GiveOwner(rs, owner, b, item), y) == true
  {
    HiFacts(rs, P, b);
    LoFacts(rs, P, b);
    if y != item { OtherItemStays(items, rs, owner, P, b, y); }
  }

  lemma GiveDescribed(items: Items, items': Items, rs: Runs, owner: map<int, int>, P: int, b: int, item: int)
    requires Partition(rs, P) && Described(items, rs, owner) && b in rs && !rs[b].free && NULL !in owner
    requires item !in owner || item == PrevItem(rs, b) || item == NextRunItem(rs, b)
    requires items'.pages == items.pages[item := Hi(rs, b) - Lo(rs, b)] && items'.base == items.base[item := Lo(rs, b)]
    ensures Lo(rs, b) in rs && Described(items', Give(rs, b, item), GiveOwner(rs, owner, b, item)) == true
  {
    LoFacts(rs, P, b);
    var r, owner' := Give(rs, b, item), GiveOwner(rs, owner, b, item);
    forall c | c in r ensures ItemOk(items', r, owner', c) == true {
      GiveItemOk(items, items', rs, owner, P, b, item, c);
    }
    forall y | y in owner' ensures OwnerOk(r, owner', y) == true {
      GiveOwnerOk(items, rs, owner, P, b, item, y);
    }
  }

  lemma GiveKeepsItem(items: Items, rs: Runs, owner: map<int, int>, P: int, b: int, c: int)
    requires Partition(rs, P) && Described(items, rs, owner) && b in rs && !rs[b].free && NULL !in owner
    requires c in rs && rs[c].free ==> c != Lo(rs, b) && !(Lo(rs, b) < c < Hi(rs, b))
    ensures c in rs && rs[c].free ==> rs[c].item != PrevItem(rs, b) && rs[c].item != NextRunItem(rs, b)
                                      && rs[c].item in owner
  {
    LoFacts(rs, P, b);
    HiFacts(rs, P, b);
    if c in rs {
      assert ItemOk(items, rs, owner, c) == true;
      assert ItemOk(items, rs, owner, Lo(rs, b)) == true;
      var e := b + rs[b].n;
      if e in rs { assert ItemOk(items, rs, owner, e) == true && RunOk(rs, P, e) == true; }
    }
  }

  /** The store after the free run before b was taken in, after the one behind it was, and at the end. */
  function GivePrevStore(s: Store, rs: Runs, b: int): Store
    requires b in rs && |s.heads| == |s.counts| == |s.lists|
    requires Lo(rs, b) < b ==> Lo(rs, b) in rs && 0 < b < |s.tags| && Bucket(rs[Lo(rs, b)].n) < |s.heads|
  {
    var lo := Lo(rs, b);
    if lo < b then Unlink(s, Bucket(rs[lo].n), rs[lo].item).(tags := ClearPrev(s.tags, b, rs[lo].n)) else s
  }

  function GiveNextStore(s: Store, rs: Runs, b: int): Store
    requires b in rs && |s.heads| == |s.counts| == |s.lists|
    requires NextRunItem(rs, b) != NULL ==> 0 < b + rs[b].n < |s.tags| && Bucket(rs[b + rs[b].n].n) < |s.heads|
  {
    var e := b + rs[b].n;
    if NextRunItem(rs, b) != NULL then Unlink(s, Bucket(rs[e].n), rs[e].item).(tags := ClearNext(s.tags, e)) else s
  }

  lemma NoNullItem(s: Store, first: int, cls: map<int, nat>)
    requires Stocked(s, first, cls) == true
    ensures NULL !in cls && cls - {NULL} == cls
  {
    assert NULL in cls ==> Taken(s, first, NULL) == true;
  }

  lemma UnlinkTagged(s: Store, first: int, cls: map<int, nat>, x: int, tags: seq<Tag>)
    requires Stocked(s, first, cls) == true && x in cls
    ensures cls[x] < BUCKETS && |s.heads| == |s.counts| == |s.lists| == BUCKETS
    ensures Stocked(Unlink(s, cls[x], x).(tags := tags), first, cls - {x}) == true
  {
    UnlinkStocked(s, first, cls, x);
    StockedTags(Unlink(s, cls[x], x), Unlink(s, cls[x], x).(tags := tags), first, cls - {x});
  }

  /** What `freePages` can rely on about the neighbours. */
  lemma GiveFacts(s: Store, first: int, rs: Runs, owner: map<int, int>, P: int, b: int)
    requires Consistent(s, first, rs, owner, P) == true && b in rs && !rs[b].free
    ensures |s.heads| == |s.counts| == |s.lists| == BUCKETS && |s.tags| == P + 1
    ensures 0 <= Lo(rs, b) <= b < b + rs[b].n <= Hi(rs, b) <= P && Lo(rs, b) in rs
    ensures Lo(rs, b) < b ==>
              && rs[Lo(rs, b)].free && PrevItem(rs, b) == rs[Lo(rs, b)].item && Bucket(rs[Lo(rs, b)].n) < BUCKETS
              && PrevItem(rs, b) in Classes(rs, owner) && Classes(rs, owner)[PrevItem(rs, b)] == Bucket(rs[Lo(rs, b)].n)
    ensures Lo(rs, b) == b ==> PrevItem(rs, b) == NULL
    ensures NextRunItem(rs, b) != NULL <==> b + rs[b].n in rs && rs[b + rs[b].n].free
    ensures NextRunItem(rs, b) != NULL ==>
              var e := b + rs[b].n;
              && e < P && Bucket(rs[e].n) < BUCKETS && NextRunItem(rs, b) in Classes(rs, owner) - {PrevItem(rs, b)}
              && Classes(rs, owner)[NextRunItem(rs, b)] == Bucket(rs[e].n)
    ensures NULL !in owner
  {
    NoNullItem(s, first, Classes(rs, owner));
    LoFacts(rs, P, b);
    HiFacts(rs, P, b);
    var lo, e := Lo(rs, b), b + rs[b].n;
    if lo < b {
      assert RunOk(rs, P, lo) == true;
      TakeFacts(s, first, rs, owner, P, lo, rs[lo].n);
    }
    if e in rs && rs[e].free {
      assert RunOk(rs, P, e) == true;
      TakeFacts(s, first, rs, owner, P, e, rs[e].n);
      ItemsDiffer(s.items, rs, owner, P, b);
    }
  }

  /** The neighbours of b are where `freePages` needs them. */
  ghost predicate CanFree(s: Store, rs: Runs, b: int)
  {
    && b in rs && |s.heads| == |s.counts| == |s.lists| == BUCKETS && 0 <= Lo(rs, b) < Hi(rs, b)
       && Bucket(Hi(rs, b) - Lo(rs, b)) < BUCKETS
    && (Lo(rs, b) < b ==> Lo(rs, b) in rs && 0 < b < |s.tags| && Bucket(rs[Lo(rs, b)].n) < BUCKETS)
    && (NextRunItem(rs, b) != NULL ==> 0 < b + rs[b].n < |s.tags| && Bucket(rs[b + rs[b].n].n) < BUCKETS)
    && Hi(rs, b) < |s.tags|
  }

  ghost function JoinedStore(s: Store, rs: Runs, b: int): Store
    requires CanFree(s, rs, b)
  {
    GiveNextStore(GivePrevStore(s, rs, b), rs, b)
  }

  /** The store after busy run b was freed. */
  ghost function FreedStore(s: Store, rs: Runs, b: int): Store
    requires CanFree(s, rs, b)
  {
    Listed(JoinedStore(s, rs, b), Lo(rs, b), Hi(rs, b) - Lo(rs, b))
  }

  lemma GivePrevStocked(s: Store, first: int, rs: Runs, owner: map<int, int>, P: int, b: int)
    requires Consistent(s, first, rs, owner, P) == true && b in rs && !rs[b].free && CanFree(s, rs, b)
    ensures Stocked(GivePrevStore(s, rs, b), first, Classes(rs, owner) - {PrevItem(rs, b)}) == true
  {
    GiveFacts(s, first, rs, owner, P, b);
    NoNullItem(s, first, Classes(rs, owner));
    if Lo(rs, b) < b {
      UnlinkTagged(s, first, Classes(rs, owner), PrevItem(rs, b), ClearPrev(s.tags, b, rs[Lo(rs, b)].n));
    }
  }

  lemma GiveNextStocked(s: Store, first: int, cls: map<int, nat>, rs: Runs, b: int)
    requires Stocked(s, first, cls) == true && b in rs && |s.heads| == |s.counts| == |s.lists|
    requires NextRunItem(rs, b) != NULL ==>
               var e := b + rs[b].n;
               && 0 < e < |s.tags| && Bucket(rs[e].n) < |s.heads|
               && rs[e].item in cls && cls[rs[e].item] == Bucket(rs[e].n)
    ensures Stocked(GiveNextStore(s, rs, b), first, cls - {NextRunItem(rs, b)}) == true
  {
    NoNullItem(s, first, cls);
    if NextRunItem(rs, b) != NULL { UnlinkTagged(s, first, cls, NextRunItem(rs, b), ClearNext(s.tags, b + rs[b].n)); }
  }

  lemma GiveStocked(s: Store, first: int, rs: Runs, owner: map<int, int>, P: int, b: int)
    requires Consistent(s, first, rs, owner, P) == true && b in rs && !rs[b].free && CanFree(s, rs, b)
    ensures Stocked(JoinedStore(s, rs, b), first, Classes(rs, owner) - {PrevItem(rs, b)} - {NextRunItem(rs, b)}) == true
  {
    GiveFacts(s, first, rs, owner, P, b);
    GivePrevStocked(s, first, rs, owner, P, b);
    GiveNextStocked(GivePrevStore(s, rs, b), first, Classes(rs, owner) - {PrevItem(rs, b)}, rs, b);
  }

  lemma ItemsDiffer(items: Items, rs: Runs, owner: map<int, int>, P: int, b: int)
    requires Partition(rs, P) && Described(items, rs, owner) && b in rs && b + rs[b].n in rs && rs[b + rs[b].n].free
    requires NULL !in owner
    ensures rs[b + rs[b].n].item != PrevItem(rs, b)
  {
    LoFacts(rs, P, b);
    assert RunOk(rs, P, b) == true;
    assert ItemOk(items, rs, owner, b + rs[b].n) == true && ItemOk(items, rs, owner, Lo(rs, b)) == true;
  }

  lemma Pow2Of64()
    ensures Pow2(64) == 0x1_0000_0000_0000_0000
  {
    assert Pow2(4) == 16;
    assert Pow2(8) == 0x100;
    assert Pow2(12) == 0x1000;
    assert Pow2(16) == 0x1_0000;
    assert Pow2(20) == 0x10_0000;
    assert Pow2(24) == 0x100_0000;
    assert Pow2(28) == 0x1000_0000;
    assert Pow2(32) == 0x1_0000_0000;
    assert Pow2(36) == 0x10_0000_0000;
    assert Pow2(40) == 0x100_0000_0000;
    assert Pow2(44) == 0x1000_0000_0000;
    assert Pow2(48) == 0x1_0000_0000_0000;
    assert Pow2(52) == 0x10_0000_0000_0000;
    assert Pow2(56) == 0x100_0000_0000_0000;
    assert Pow2(60) == 0x1000_0000_0000_0000;
  }

  lemma PagesBucket(n: int)
    requires n <= INVALID
    ensures Bucket(n) < BUCKETS
  {
    Pow2Of64();
    if n > 0 { Log2Below(n, 64); }
  }

  /** Freeing a busy run keeps everything in agreement, if its free neighbours were unlinked and
      the result was listed under `item`. */
  lemma GiveConsistent(s: Store, s': Store, first: int, rs: Runs, owner: map<int, int>, P: int, b: int, item: int)
    requires Consistent(s, first, rs, owner, P) == true && b in rs && !rs[b].free && item > 0 && item % 32 == 0
    requires item !in owner || item == PrevItem(rs, b) || item == NextRunItem(rs, b)
    requires 0 <= Lo(rs, b) <= b < b + rs[b].n <= Hi(rs, b) <= P && Lo(rs, b) in rs && |s.tags| == P + 1
    requires s'.tags == GiveTagsOf(s.tags, rs, b, item)
    requires s'.items.pages == s.items.pages[item := Hi(rs, b) - Lo(rs, b)]
    requires s'.items.base == s.items.base[item := Lo(rs, b)]
    requires Stocked(s', first, Classes(Give(rs, b, item), GiveOwner(rs, owner, b, item)))
    ensures Consistent(s', first, Give(rs, b, item), GiveOwner(rs, owner, b, item), P) == true
  {
    NoNullItem(s, first, Classes(rs, owner));
    GivePartition(rs, P, b, item);
    GiveTags(s.tags, rs, P, b, item);
    GiveDescribed(s.items, s'.items, rs, owner, P, b, item);
  }

  // ---------------------------------------------------------------------------------
  // How many items are needed
  // ---------------------------------------------------------------------------------

  /** The number of free runs that start below page p. */
  ghost function FreeRuns(rs: Runs, p: nat): nat
  {
    if p == 0 then 0 else FreeRuns(rs, p - 1) + if p - 1 in rs && rs[p - 1].free then 1 else 0
  }

  /** Their items. */
  ghost function ItemsBelow(owner: map<int, int>, p: int): set<int> { set x | x in owner && owner[x] < p }

  lemma ItemsNone(items: Items, rs: Runs, owner: map<int, int>, P: int)
    requires Partition(rs, P) && Described(items, rs, owner)
    ensures ItemsBelow(owner, 0) == {}
  {
    forall x | x in owner ensures owner[x] >= 0 {
      assert OwnerOk(rs, owner, x) == true && RunOk(rs, P, owner[x]) == true;
    }
  }

  lemma ItemsNext(items: Items, rs: Runs, owner: map<int, int>, b: int)
    requires Described(items, rs, owner)
    ensures if b in rs && rs[b].free then rs[b].item !in ItemsBelow(owner, b)
            && ItemsBelow(owner, b + 1) == ItemsBelow(owner, b) + {rs[b].item}
            else ItemsBelow(owner, b + 1) == ItemsBelow(owner, b)
  {
    forall x | x in owner ensures owner[x] in rs && rs[owner[x]].free && rs[owner[x]].item == x {
      assert OwnerOk(rs, owner, x) == true;
    }
    if b in rs && rs[b].free {
      assert ItemOk(items, rs, owner, b) == true;
    }
  }

  lemma {:induction false} CountBelow(items: Items, rs: Runs, owner: map<int, int>, P: int, p: nat)
    requires Partition(rs, P) && Described(items, rs, owner)
    ensures |ItemsBelow(owner, p)| == FreeRuns(rs, p) <= p
  {
    if p == 0 {
      ItemsNone(items, rs, owner, P);
    } else {
      CountBelow(items, rs, owner, P, p - 1);
      ItemsNext(items, rs, owner, p - 1);
    }
  }

  /** There is one item in use for every free run, and there are never more free runs than pages. */
  lemma FreeRunsBound(items: Items, rs: Runs, owner: map<int, int>, P: nat)
    requires Partition(rs, P) && Described(items, rs, owner)
    ensures |owner| == FreeRuns(rs, P) <= P
  {
    CountBelow(items, rs, owner, P, P);
    forall x | x in owner ensures owner[x] < P {
      assert OwnerOk(rs, owner, x) == true && RunOk(rs, P, owner[x]) == true;
    }
    assert ItemsBelow(owner, P) == owner.Keys;
  }

  // ---------------------------------------------------------------------------------
  // The search of allocPages
  // ---------------------------------------------------------------------------------

  /** None of the items, each the item of a free run, has the given number of pages. */
  ghost predicate NoneFits(items: Items, list: seq<int>, n: int)
  {
    forall i :: 0 <= i < |list| ==> Get(items.pages, list[i]) < n
  }

  lemma NoneFitsStep(items: Items, list: seq<int>, i: nat, n: int)
    requires i < |list| && NoneFits(items, list[..i], n) && Get(items.pages, list[i]) < n
    ensures NoneFits(items, list[..i + 1], n) == true
  {
    assert list[..i + 1] == list[..i] + [list[i]];
  }

  ghost predicate BestOf(items: Items, list: seq<int>, n: int, x: int)
  {
    && x in list && Get(items.pages, x) >= n
    && (forall i :: 0 <= i < |list| && Get(items.pages, list[i]) >= n ==>
        Get(items.pages, x) <= Get(items.pages, list[i]))
  }

  /** The best fit among the first i items so far, NULL if none fits. */
  ghost predicate BestSoFar(items: Items, list: seq<int>, i: int, n: int, best: int, delta: int)
  {
    && 0 <= i <= |list|
    && (best == NULL ==> NoneFits(items, list[..i], n))
    && (best != NULL ==> BestOf(items, list[..i], n, best) && delta == Get(items.pages, best) - n)
  }

  lemma BestStep(items: Items, list: seq<int>, i: int, n: int, best: int, delta: int)
    requires BestSoFar(items, list, i, n, best, delta) && i < |list| && list[i] != NULL
    ensures var d := Get(items.pages, list[i]) - n;
            && BestSoFar(items, list, i + 1, n, if d >= 0 && (best == NULL || d < delta) then list[i] else best,
                         if d >= 0 && (best == NULL || d < delta) then d else delta)
            && (d == 0 ==> forall j :: i < j <= |list| ==> BestOf(items, list[..j], n, list[i]))
  {
    assert list[..i + 1] == list[..i] + [list[i]];
    if Get(items.pages, list[i]) == n {
      forall j | i < j <= |list| ensures BestOf(items, list[..j], n, list[i]) { assert list[..j][i] == list[i]; }
    }
  }

  function Scanned(list: seq<int>): seq<int>
  {
    if |list| <= MAX_ITERATIONS then list else list[..MAX_ITERATIONS]
  }

  /** All buckets above that of n are empty. */
  ghost predicate NothingLarger(s: Store, n: int)
    requires |s.lists| == BUCKETS
  {
    forall k :: Bucket(n) < k < BUCKETS ==> s.lists[k] == []
  }

  /** Stage one: best fit among the first 32 items of the bucket. Stage two: the first item of
      the next bucket that has one. Stage three: the first fit among the rest of the bucket. */
  ghost predicate FoundInStage(s: Store, n: int, x: int, stage: int)
    requires |s.lists| == BUCKETS && Bucket(n) < BUCKETS
  {
    var own := s.lists[Bucket(n)];
    || (stage == 1 && BestOf(s.items, Scanned(own), n, x))
    || (stage == 2 && NoneFits(s.items, Scanned(own), n)
        && exists k :: Bucket(n) < k < BUCKETS && s.lists[k] != [] && x == s.lists[k][0]
                       && forall j :: Bucket(n) < j < k ==> s.lists[j] == [])
    || (stage == 3 && NoneFits(s.items, Scanned(own), n) && NothingLarger(s, n)
        && exists i ::
             MAX_ITERATIONS <= i < |own| && x == own[i] && Get(s.items.pages, x) >= n && NoneFits(s.items, own[..i], n))
    || (stage == 0 && NoneFits(s.items, own, n) && NothingLarger(s, n))
  }

  /** What was found is the item of a free run that is large enough ... */
  lemma FoundFits(s: Store, first: int, rs: Runs, owner: map<int, int>, P: int, n: int, x: int, stage: int)
    requires Consistent(s, first, rs, owner, P) == true && n >= 1 && Bucket(n) < BUCKETS && |s.lists| == BUCKETS
    requires FoundInStage(s, n, x, stage) && stage != 0
    ensures x in owner && owner[x] in rs && rs[owner[x]].free && rs[owner[x]].item == x && rs[owner[x]].n >= n
    ensures Get(s.items.pages, x) == rs[owner[x]].n && Get(s.items.base, x) == owner[x]
  {
    var own := s.lists[Bucket(n)];
    if stage == 1 {
      var i: nat :| i < |Scanned(own)| && Scanned(own)[i] == x;
      ListedRun(s, first, rs, owner, P, Bucket(n), i);
    } else if stage == 2 {
      var k: nat :| Bucket(n) < k < BUCKETS && s.lists[k] != [] && x == s.lists[k][0];
      ListedRun(s, first, rs, owner, P, k, 0);
      Log2Order(n, rs[owner[x]].n);
    } else {
      var i: nat :| MAX_ITERATIONS <= i < |own| && x == own[i] && Get(s.items.pages, x) >= n
        && NoneFits(s.items, own[..i], n);
      ListedRun(s, first, rs, owner, P, Bucket(n), i);
    }
  }

  /** ... and the search is complete: when nothing was found, no free run is large enough. */
  lemma NotFoundComplete(s: Store, first: int, rs: Runs, owner: map<int, int>, P: int, n: int, b: int)
    requires Consistent(s, first, rs, owner, P) == true && n >= 1 && Bucket(n) < BUCKETS && |s.lists| == BUCKETS
    requires FoundInStage(s, n, NULL, 0) && b in rs && rs[b].free
    ensures rs[b].n < n
  {
    RunListed(s, first, rs, owner, P, b);
    assert RunOk(rs, P, b) == true && ItemOk(s.items, rs, owner, b) == true;
    var k := Bucket(rs[b].n);
    var i :| 0 <= i < |s.lists[k]| && s.lists[k][i] == rs[b].item;
    Log2Order(rs[b].n, n);
    assert k <= Bucket(n);
  }

  /** The partition, the tags and the items agree: `freePages` finds its neighbours. */
  ghost predicate Agrees(s: Store, rs: Runs, owner: map<int, int>, P: int)
  {
    Partition(rs, P) && TagsOk(s.tags, rs, P) && Described(s.items, rs, owner)
  }

  /** Item x is listed in bucket k and has room for n pages. */
  ghost predicate Room(s: Store, k: nat, x: int, n: int)
  {
    && k < |s.heads| == |s.counts| == |s.lists|
    && 1 <= n <= Get(s.items.pages, x) && Bucket(Get(s.items.pages, x) - n) < |s.heads|
    && 0 <= Get(s.items.base, x) && Get(s.items.base, x) + Get(s.items.pages, x) < |s.tags|
  }

  /** The store after the first n pages of the run of item x were marked busy, without its rest and with it. */
  ghost function MarkedStore(s: Store, k: nat, x: int, n: int): Store
    requires Room(s, k, x, n)
  {
    Unlink(s, k, x).(tags := BusyTags(s.tags, Get(s.items.base, x), n))
  }

  ghost function AllocStore(s: Store, k: nat, x: int, n: int): Store
    requires Room(s, k, x, n)
  {
    var s1, rest, base := MarkedStore(s, k, x, n), Get(s.items.pages, x) - n, Get(s.items.base, x) + n;
    if rest == 0 then s1 else Listed(s1, base, rest)
  }

  lemma ListedStocked(s: Store, first: int, cls: map<int, nat>, base: int, n: int, cls': map<int, nat>)
    requires Stocked(s, first, cls) == true && Bucket(n) < BUCKETS && 0 <= base && 1 <= n && base + n <= |s.tags|
    requires cls' == cls[NextItem(s) := Bucket(n)]
    ensures Stocked(Listed(s, base, n), first, cls') == true
  {
    EnlistStocked(s, first, cls, base, n);
    StockedTags(Enlist(s, base, n), Listed(s, base, n), first, cls');
  }

  lemma MarkedStocked(s: Store, first: int, cls: map<int, nat>, x: int, n: int)
    requires Stocked(s, first, cls) == true && x in cls && Room(s, cls[x], x, n)
    ensures Stocked(MarkedStore(s, cls[x], x, n), first, cls - {x}) == true && x != NULL
    ensures NextItem(MarkedStore(s, cls[x], x, n)) == x
  {
    NoNullItem(s, first, cls);
    UnlinkTagged(s, first, cls, x, BusyTags(s.tags, Get(s.items.base, x), n));
  }

  lemma AllocStocked(s: Store, first: int, cls: map<int, nat>, x: int, n: int)
    requires Stocked(s, first, cls) == true && x in cls && Room(s, cls[x], x, n)
    ensures var rest := Get(s.items.pages, x) - n;
            Stocked(AllocStore(s, cls[x], x, n), first, if rest == 0 then cls - {x} else (cls - {x})[x := Bucket(rest)])
  {
    MarkedStocked(s, first, cls, x, n);
    var s1, rest, base := MarkedStore(s, cls[x], x, n), Get(s.items.pages, x) - n, Get(s.items.base, x) + n;
    if rest > 0 { ListedStocked(s1, first, cls - {x}, base, rest, (cls - {x})[x := Bucket(rest)]); }
  }

  /** The item of a free run has room for as many pages as the run has. */
  lemma RunHasRoom(s: Store, first: int, rs: Runs, owner: map<int, int>, P: int, b: int, n: int)
    requires Consistent(s, first, rs, owner, P) == true && b in rs && rs[b].free && 1 <= n <= rs[b].n
    ensures Room(s, Bucket(rs[b].n), rs[b].item, n) == true && rs[b].item in Classes(rs, owner)
    ensures Classes(rs, owner)[rs[b].item] == Bucket(rs[b].n) && rs[b].item != NULL && 0 <= b < b + rs[b].n <= P
    ensures Get(s.items.pages, rs[b].item) == rs[b].n && Get(s.items.base, rs[b].item) == b
  {
    TakeFacts(s, first, rs, owner, P, b, n);
    assert ItemOk(s.items, rs, owner, b) == true;
  }

  /** The tags and items that an allocation leaves. */
  lemma AllocWrites(s: Store, k: nat, x: int, n: int)
    requires Room(s, k, x, n) && x != NULL
    ensures WrittenFor(s, AllocStore(s, k, x, n), Get(s.items.base, x), Get(s.items.pages, x), n, x) == true
  {
  }

  lemma AllocConsistent(s: Store, first: int, rs: Runs, owner: map<int, int>, P: int, b: int, n: int)
    requires Consistent(s, first, rs, owner, P) == true && b in rs && rs[b].free && 1 <= n <= rs[b].n
    requires Room(s, Bucket(rs[b].n), rs[b].item, n)
    ensures Consistent(AllocStore(s, Bucket(rs[b].n), rs[b].item, n), first, Take(rs, b, n, rs[b].item),
                       TakeOwner(rs, owner, b, n), P) == true
  {
    var x := rs[b].item;
    RunHasRoom(s, first, rs, owner, P, b, n);
    AllocClasses(s, first, rs, owner, P, b, n);
    AllocWrites(s, Bucket(rs[b].n), x, n);
    TakeConsistent(s, AllocStore(s, Bucket(rs[b].n), x, n), first, rs, owner, P, b, n, x);
  }

  lemma AllocClasses(s: Store, first: int, rs: Runs, owner: map<int, int>, P: int, b: int, n: int)
    requires Consistent(s, first, rs, owner, P) == true && b in rs && rs[b].free && 1 <= n <= rs[b].n
    requires Room(s, Bucket(rs[b].n), rs[b].item, n)
    ensures Stocked(AllocStore(s, Bucket(rs[b].n), rs[b].item, n), first,
                    Classes(Take(rs, b, n, rs[b].item), TakeOwner(rs, owner, b, n))) == true
  {
    RunHasRoom(s, first, rs, owner, P, b, n);
    AllocStocked(s, first, Classes(rs, owner), rs[b].item, n);
    TakeClasses(rs, owner, P, s.items, b, n, rs[b].item);
  }

  /** Allocating neither takes an item from the bump pointer nor loses one. */
  lemma AllocCount(s: Store, rs: Runs, owner: map<int, int>, b: int, n: int)
    requires b in rs && rs[b].free && rs[b].item in owner && Room(s, Bucket(rs[b].n), rs[b].item, n)
    requires rs[b].item != NULL
    requires Get(s.items.pages, rs[b].item) == rs[b].n
    ensures |TakeOwner(rs, owner, b, n)| + |AllocStore(s, Bucket(rs[b].n), rs[b].item, n).pool| == |owner| + |s.pool|
  {
    var x := rs[b].item;
    assert owner.Keys == (owner - {x}).Keys + {x};
    assert n < rs[b].n ==> TakeOwner(rs, owner, b, n).Keys == (owner - {x}).Keys + {x};
  }

  /** A busy run of n pages at b with neither a busy run nor a free one behind it. */
  lemma NoRunBehind(s: Store, P: int, b: int, n: int, x: int, qs: Runs, qowner: map<int, int>)
    requires 0 <= b && 1 <= n && b + n < P && |s.tags| == P + 1 && Get(s.items.base, x) == b
    requires s.tags[b] == Tag(n * 4096, true, false) && (s.tags[b + n] == ZERO || s.tags[b + n] == Tag(x, false, false))
    ensures !Agrees(s, qs, qowner, P)
  {
    if Agrees(s, qs, qowner, P) {
      TagTellsBusyBase(s.tags, qs, P, b);
      HeadsNameItems(s, qs, qowner, P);
      RunBehind(qs, P, b);
    }
  }

  /** The tag of the first page of a free run names an item that names the page. */
  lemma HeadsNameItems(s: Store, rs: Runs, owner: map<int, int>, P: int)
    requires Agrees(s, rs, owner, P)
    ensures forall c {:trigger s.tags[c]} :: c in rs && 0 <= c < |s.tags| && !s.tags[c].busy ==>
              s.tags[c].word > 0
              && Get(s.items.base, s.tags[c].word) == c
  {
    forall c | c in rs && 0 <= c < |s.tags| && !s.tags[c].busy ensures s.tags[c].word > 0
      && Get(s.items.base, s.tags[c].word) == c {
      assert TagOk(s.tags, rs, c) == true && ItemOk(s.items, rs, owner, c) == true;
    }
  }

  lemma RunBehind(rs: Runs, P: int, b: int)
    requires Partition(rs, P) && b in rs && b + rs[b].n < P
    ensures b + rs[b].n in rs
  {
    assert RunOk(rs, P, b) == true;
  }

  /** When the rest of a larger run is not listed, no partition of the pages agrees with the tags any more. */
  lemma RestLost(s: Store, first: int, rs: Runs, owner: map<int, int>, P: int, b: int, n: int, qs: Runs,
                 qowner: map<int, int>)
    requires Consistent(s, first, rs, owner, P) == true && b in rs && rs[b].free && 1 <= n < rs[b].n
    requires Room(s, Bucket(rs[b].n), rs[b].item, n)
    ensures !Agrees(MarkedStore(s, Bucket(rs[b].n), rs[b].item, n), qs, qowner, P)
  {
    RunHasRoom(s, first, rs, owner, P, b, n);
    assert TagOk(s.tags, rs, b) == true;
    NoRunBehind(MarkedStore(s, Bucket(rs[b].n), rs[b].item, n), P, b, n, rs[b].item, qs, qowner);
  }

  /** Everything agrees, there is a bucket for every run that fits, and as many items are in use or in the pool as there
      were free runs at once. */
  ghost predicate Sound(s: Store, first: int, rs: Runs, owner: map<int, int>, P: int, tableSize: int, peak: int)
  {
    && Consistent(s, first, rs, owner, P)
    && tableSize <= BUCKETS && (P > 0 ==> Bucket(P) < tableSize)
    && |owner| + |s.pool| == peak <= P
  }

  lemma AllocSound(s: Store, first: int, rs: Runs, owner: map<int, int>, P: int, tableSize: int, peak: int, b: int,
                   n: int)
    requires Sound(s, first, rs, owner, P, tableSize, peak) && b in rs && rs[b].free && 1 <= n <= rs[b].n
    requires Room(s, Bucket(rs[b].n), rs[b].item, n)
    ensures Sound(AllocStore(s, Bucket(rs[b].n), rs[b].item, n), first, Take(rs, b, n, rs[b].item),
                  TakeOwner(rs, owner, b, n), P, tableSize, peak) == true
  {
    RunHasRoom(s, first, rs, owner, P, b, n);
    AllocConsistent(s, first, rs, owner, P, b, n);
    assert ItemOk(s.items, rs, owner, b) == true;
    AllocCount(s, rs, owner, b, n);
  }

  lemma NeverSound(s: Store, P: int)
    requires forall qs, qowner :: !Agrees(s, qs, qowner, P)
    ensures forall first, qs, qowner, size, peak :: !Sound(s, first, qs, qowner, P, size, peak)
  {
    forall first, qs, qowner, size, peak ensures !Sound(s, first, qs, qowner, P, size, peak) {
      assert !Agrees(s, qs, qowner, P);
    }
  }

  lemma RestLostForAll(s: Store, first: int, rs: Runs, owner: map<int, int>, P: int, tableSize: int, peak: int,
                       b: int, n: int)
    requires Sound(s, first, rs, owner, P, tableSize, peak) && b in rs && rs[b].free && 1 <= n < rs[b].n
    requires Room(s, Bucket(rs[b].n), rs[b].item, n)
    ensures forall qs, qowner :: !Agrees(MarkedStore(s, Bucket(rs[b].n), rs[b].item, n), qs, qowner, P)
    ensures var s' := MarkedStore(s, Bucket(rs[b].n), rs[b].item, n);
            forall qs, qowner, size, peak' :: !Sound(s', first, qs, qowner, P, size, peak')
  {
    var s' := MarkedStore(s, Bucket(rs[b].n), rs[b].item, n);
    forall qs, qowner ensures !Agrees(s', qs, qowner, P) {
      RestLost(s, first, rs, owner, P, b, n, qs, qowner);
    }
    forall qs, qowner, size, peak' ensures !Sound(s', first, qs, qowner, P, size, peak') {
      assert !Agrees(s', qs, qowner, P);
    }
  }

  /** Busy run b has not been flagged, and its tag says so. */
  ghost predicate TakenAt(s: Store, rs: Runs, P: int, b: int)
  {
    && b in rs && !rs[b].free && !rs[b].alloc && rs[b].n >= 1 && 0 <= b < P && |s.tags| == P + 1
    && s.tags[b] == Tag(rs[b].n * 4096, true, false)
  }

  lemma TakenTag(s: Store, rs: Runs, P: int, k: nat, x: int, n: int, split: bool, b: int)
    requires Room(s, k, x, n) && b == Get(s.items.base, x) && |s.tags| == P + 1 && b in rs && b < P && rs[b].n > 0
    ensures TakenAt(if split then AllocStore(s, k, x, n) else MarkedStore(s, k, x, n), Take(rs, b, n, x), P, b) == true
  {
  }

  /** The store after VMM_REG_ALLOC_FLAG was set. */
  function FlaggedStore(s: Store, b: int): Store
    requires 0 <= b < |s.tags|
  {
    s.(tags := s.tags[b := s.tags[b].(alloc := true)])
  }

  function Unflagged(rs: Runs, b: int): Runs
    requires b in rs
  {
    rs[b := rs[b].(alloc := false)]
  }

  lemma UnflagPartition(rs: Runs, P: int, b: int)
    requires Partition(rs, P) && b in rs
    ensures Partition(Unflagged(rs, b), P) == true
  {
    var r := Unflagged(rs, b);
    forall c | c in r ensures RunOk(r, P, c) == true { assert RunOk(rs, P, c) == true; }
    forall c, d | c in r && d in r ensures Apart(r, c, d) == true { assert Apart(rs, c, d) == true; }
  }

  lemma UnflagTags(T: seq<Tag>, rs: Runs, P: int, b: int)
    requires 0 <= b < P && |T| == P + 1 && !T[b].alloc && b in rs && !rs[b].free
    requires Partition(rs, P) && TagsOk(T[b := T[b].(alloc := true)], rs, P)
    ensures TagsOk(T, Unflagged(rs, b), P) == true
  {
    var T', r := T[b := T[b].(alloc := true)], Unflagged(rs, b);
    assert T == T'[b := T[b]];
    forall c | c in r ensures TagOk(T, r, c) == true {
      assert TagOk(T', rs, c) == true && Apart(rs, b, c) == true && Apart(rs, c, b) == true;
    }
  }

  lemma UnflagDescribed(items: Items, rs: Runs, owner: map<int, int>, b: int)
    requires Described(items, rs, owner) && b in rs
    ensures Described(items, Unflagged(rs, b), owner) == true
  {
    var r := Unflagged(rs, b);
    forall c | c in r ensures ItemOk(items, r, owner, c) == true { assert ItemOk(items, rs, owner, c) == true; }
    forall x | x in owner ensures OwnerOk(r, owner, x) == true { assert OwnerOk(rs, owner, x) == true; }
  }

  /** Where a partition agrees with the tags afterwards, one did before. */
  lemma UnflagAgrees(s: Store, P: int, b: int, qs: Runs, qowner: map<int, int>)
    requires 0 <= b < P && |s.tags| == P + 1 && s.tags[b].busy && s.tags[b].word / 4096 != 0 && !s.tags[b].alloc
    requires Agrees(FlaggedStore(s, b), qs, qowner, P) == true
    ensures b in qs && Agrees(s, Unflagged(qs, b), qowner, P) == true
  {
    TagTellsBusyBase(FlaggedStore(s, b).tags, qs, P, b);
    UnflagPartition(qs, P, b);
    UnflagTags(s.tags, qs, P, b);
    UnflagDescribed(s.items, qs, qowner, b);
  }

  lemma StillDisagrees(s: Store, P: int, b: int)
    requires 0 <= b < P && |s.tags| == P + 1 && s.tags[b].busy && s.tags[b].word / 4096 != 0 && !s.tags[b].alloc
    requires forall qs, qowner :: !Agrees(s, qs, qowner, P)
    ensures var s' := FlaggedStore(s, b); forall qs, qowner :: !Agrees(s', qs, qowner, P)
  {
    var s' := FlaggedStore(s, b);
    if qs, qowner :| Agrees(s', qs, qowner, P) {
      UnflagAgrees(s, P, b, qs, qowner);
    }
  }

  /** Stage three ran, and found a run that is not of the exact size. */
  ghost predicate LateSplit(s: Store, n: int)
    requires |s.lists| == BUCKETS && Bucket(n) < BUCKETS
  {
    exists x :: FoundInStage(s, n, x, 3) && Get(s.items.pages, x) != n
  }

  ghost predicate LosesRest(s: Store, n: int)
  {
    |s.lists| == BUCKETS && Bucket(n) < BUCKETS && LateSplit(s, n)
  }

  lemma FirstFitUnique(s: Store, n: int, x: int, y: int)
    requires |s.lists| == BUCKETS && Bucket(n) < BUCKETS && FoundInStage(s, n, x, 3) && FoundInStage(s, n, y, 3)
    ensures x == y
  {
    var own := s.lists[Bucket(n)];
    var i :| MAX_ITERATIONS <= i < |own| && x == own[i] && Get(s.items.pages, x) >= n && NoneFits(s.items, own[..i], n);
    var j :| MAX_ITERATIONS <= j < |own| && y == own[j] && Get(s.items.pages, y) >= n && NoneFits(s.items, own[..j], n);
    var k, l := if i < j then i else 0, if j < i then j else 0;
    assert own[..j][k] == own[k] && own[..i][l] == own[l];
  }

  lemma LateSplitExact(s: Store, n: int, x: int, stage: int)
    requires |s.lists| == BUCKETS && Bucket(n) < BUCKETS && FoundInStage(s, n, x, stage) && 0 <= stage <= 3
    ensures LateSplit(s, n) <==> stage == 3 && Get(s.items.pages, x) != n
  {
    if LateSplit(s, n) {
      var y :| FoundInStage(s, n, y, 3) && Get(s.items.pages, y) != n;
      if stage == 3 { FirstFitUnique(s, n, x, y); }
    }
  }

  // The neighbours of a busy run as the tags show them

  lemma PrevTag(T: seq<Tag>, rs: Runs, P: int, b: int)
    requires Partition(rs, P) && TagsOk(T, rs, P) && b in rs && b > 0
    ensures b <= P && (Lo(rs, b) < b <==> !T[b - 1].busy && T[b - 1].word != 0)
    ensures Lo(rs, b) < b ==> Lo(rs, b) in rs && T[b - 1].word == rs[Lo(rs, b)].item
  {
    assert RunOk(rs, P, b) == true;
    assert TagOk(T, rs, rs[b].prev) == true;
  }

  lemma NextTag(T: seq<Tag>, rs: Runs, P: int, b: int)
    requires Partition(rs, P) && TagsOk(T, rs, P) && b in rs
    ensures var e := b + rs[b].n;
            && 0 <= e <= P && (e in rs && rs[e].free <==> !T[e].busy && T[e].word != 0)
            && (e in rs && rs[e].free ==> T[e].word == rs[e].item)
  {
    assert RunOk(rs, P, b) == true;
    var e := b + rs[b].n;
    if e in rs {
      assert TagOk(T, rs, e) == true;
    }
  }

  lemma BusyCanBeFreed(s: Store, first: int, rs: Runs, owner: map<int, int>, P: int, b: int)
    requires Consistent(s, first, rs, owner, P) == true && b in rs && !rs[b].free
    ensures CanFree(s, rs, b) == true
  {
    GiveFacts(s, first, rs, owner, P, b);
    PagesBucket(Hi(rs, b) - Lo(rs, b));
  }

  lemma FreedWrites(s: Store, rs: Runs, P: int, b: int)
    requires Partition(rs, P) && CanFree(s, rs, b) && !rs[b].free && |s.tags| == P + 1
    requires NextRunItem(rs, b) != NULL <==> b + rs[b].n in rs && rs[b + rs[b].n].free
    ensures 0 <= Lo(rs, b) <= b < b + rs[b].n <= Hi(rs, b) <= P && Lo(rs, b) in rs
    ensures var s', item := FreedStore(s, rs, b), NextItem(JoinedStore(s, rs, b));
            && s'.tags == GiveTagsOf(s.tags, rs, b, item)
            && s'.items.pages == s.items.pages[item := Hi(rs, b) - Lo(rs, b)]
               && s'.items.base == s.items.base[item := Lo(rs, b)]
  {
    LoFacts(rs, P, b);
    HiFacts(rs, P, b);
    if b + rs[b].n in rs { assert RunOk(rs, P, b + rs[b].n) == true; }
  }

  /** The item for the freed run is a new one, or the one of a neighbour. */
  lemma FreedItem(s: Store, first: int, rs: Runs, owner: map<int, int>, P: int, b: int)
    requires Consistent(s, first, rs, owner, P) == true && b in rs && !rs[b].free && CanFree(s, rs, b)
    ensures Stocked(JoinedStore(s, rs, b), first, Classes(rs, owner) - {PrevItem(rs, b)} - {NextRunItem(rs, b)}) == true
    ensures var item := NextItem(JoinedStore(s, rs, b));
            item > 0 && item % 32 == 0 && (item !in owner || item == PrevItem(rs, b) || item == NextRunItem(rs, b))
  {
    GiveStocked(s, first, rs, owner, P, b);
    NextItemNew(JoinedStore(s, rs, b), first, Classes(rs, owner) - {PrevItem(rs, b)} - {NextRunItem(rs, b)});
  }

  lemma MinusBoth(cls: map<int, nat>, x: int, y: int)
    ensures cls - {x} - {y} == cls - {x, y}
  {
  }

  lemma FreedClasses(s: Store, first: int, rs: Runs, owner: map<int, int>, P: int, b: int, item: int)
    requires Consistent(s, first, rs, owner, P) == true && b in rs && !rs[b].free
    requires item !in owner || item == PrevItem(rs, b) || item == NextRunItem(rs, b)
    ensures Lo(rs, b) in rs
    ensures Classes(Give(rs, b, item), GiveOwner(rs, owner, b, item)) ==
              (Classes(rs, owner) - {PrevItem(rs, b)} - {NextRunItem(rs, b)})[item := Bucket(Hi(rs, b) - Lo(rs, b))]
  {
    NoNullItem(s, first, Classes(rs, owner));
    GiveClasses(rs, owner, P, s.items, b, item);
    MinusBoth(Classes(rs, owner), PrevItem(rs, b), NextRunItem(rs, b));
  }

  lemma FreedStocked(s: Store, first: int, rs: Runs, b: int, cls: map<int, nat>, cls': map<int, nat>)
    requires CanFree(s, rs, b) && Stocked(JoinedStore(s, rs, b), first, cls) == true
    requires Hi(rs, b) <= |JoinedStore(s, rs, b).tags|
    requires cls' == cls[NextItem(JoinedStore(s, rs, b)) := Bucket(Hi(rs, b) - Lo(rs, b))]
    ensures Stocked(FreedStore(s, rs, b), first, cls') == true
  {
    ListedStocked(JoinedStore(s, rs, b), first, cls, Lo(rs, b), Hi(rs, b) - Lo(rs, b), cls');
  }

  lemma FreedConsistent(s: Store, first: int, rs: Runs, owner: map<int, int>, P: int, b: int)
    requires Consistent(s, first, rs, owner, P) == true && b in rs && !rs[b].free && CanFree(s, rs, b)
    ensures Lo(rs, b) in rs
    ensures var item := NextItem(JoinedStore(s, rs, b));
            Consistent(FreedStore(s, rs, b), first, Give(rs, b, item), GiveOwner(rs, owner, b, item), P)
  {
    GiveFacts(s, first, rs, owner, P, b);
    FreedItem(s, first, rs, owner, P, b);
    var item, cls2 := NextItem(JoinedStore(s, rs, b)), Classes(rs, owner) - {PrevItem(rs, b)} - {NextRunItem(rs, b)};
    FreedClasses(s, first, rs, owner, P, b, item);
    FreedStocked(s, first, rs, b, cls2, Classes(Give(rs, b, item), GiveOwner(rs, owner, b, item)));
    FreedWrites(s, rs, P, b);
    GiveConsistent(s, FreedStore(s, rs, b), first, rs, owner, P, b, item);
  }

  /** The tags around busy run b, and the items they name, lead to its free neighbours. */
  ghost predicate SeesPrev(s: Store, cls: map<int, nat>, rs: Runs, b: int)
  {
    && b in rs && 0 <= b < |s.tags| && Lo(rs, b) <= b && (b == 0 ==> Lo(rs, b) == 0)
    && (b > 0 ==> (Lo(rs, b) < b <==> !s.tags[b - 1].busy && s.tags[b - 1].word != 0))
    && (Lo(rs, b) < b ==>
          var lo := Lo(rs, b);
          && lo in rs && s.tags[b - 1].word == rs[lo].item && rs[lo].item in cls && cls[rs[lo].item] == Bucket(rs[lo].n)
          && Get(s.items.pages, rs[lo].item) == rs[lo].n && Get(s.items.base, rs[lo].item) == lo)
  }

  ghost predicate SeesNext(s: Store, cls: map<int, nat>, rs: Runs, b: int)
  {
    && b in rs && 0 < b + rs[b].n < |s.tags|
    && var e := b + rs[b].n;
       && (NextRunItem(rs, b) != NULL <==> !s.tags[e].busy && s.tags[e].word != 0)
       && (NextRunItem(rs, b) != NULL ==>
             && s.tags[e].word == rs[e].item && rs[e].item in cls && cls[rs[e].item] == Bucket(rs[e].n)
             && Get(s.items.pages, rs[e].item) == rs[e].n && Get(s.items.base, rs[e].item) == e)
  }

  lemma BusySeesPrev(s: Store, first: int, rs: Runs, owner: map<int, int>, P: int, b: int)
    requires Consistent(s, first, rs, owner, P) == true && b in rs && !rs[b].free
    ensures SeesPrev(s, Classes(rs, owner), rs, b) == true
  {
    GiveFacts(s, first, rs, owner, P, b);
    if b > 0 { PrevTag(s.tags, rs, P, b); }
    assert ItemOk(s.items, rs, owner, Lo(rs, b)) == true;
  }

  lemma BusySeesNext(s: Store, first: int, rs: Runs, owner: map<int, int>, P: int, b: int)
    requires Consistent(s, first, rs, owner, P) == true && b in rs && !rs[b].free && CanFree(s, rs, b)
    ensures SeesNext(GivePrevStore(s, rs, b), Classes(rs, owner) - {PrevItem(rs, b)}, rs, b) == true
  {
    GiveFacts(s, first, rs, owner, P, b);
    NextTag(s.tags, rs, P, b);
    var e := b + rs[b].n;
    if e in rs { assert ItemOk(s.items, rs, owner, e) == true; }
  }

  lemma GiveItemAt(rs: Runs, P: int, b: int, item: int)
    requires Partition(rs, P) && b in rs && !rs[b].free
    ensures Lo(rs, b) in rs && Lo(rs, b) in Give(rs, b, item) && Give(rs, b, item)[Lo(rs, b)].item == item
  {
    LoFacts(rs, P, b);
    HiFacts(rs, P, b);
  }

  /** The pages of run b and of its free neighbours. */
  function MergedSize(rs: Runs, b: int): int
    requires b in rs && (Lo(rs, b) < b ==> Lo(rs, b) in rs)
  {
    (if Lo(rs, b) < b then rs[Lo(rs, b)].n else 0) + rs[b].n + (if NextRunItem(rs, b) != NULL then rs[b + rs[b].n].n
                                                                else 0)
  }

  lemma ReleaseFacts(s: Store, first: int, cls: map<int, nat>, rs: Runs, b: int)
    requires Releasable(s, first, cls, rs, b) == true
    ensures CanFree(s, rs, b) == true && MergedSize(rs, b) == Hi(rs, b) - Lo(rs, b)
    ensures 0 <= Lo(rs, b) && 1 <= MergedSize(rs, b) && Lo(rs, b) + MergedSize(rs, b) < |s.tags|
    ensures Bucket(MergedSize(rs, b)) < BUCKETS
  {
  }

  /** All that `freePages` relies on from one step to the next. */
  ghost predicate Releasable(s: Store, first: int, cls: map<int, nat>, rs: Runs, b: int)
  {
    && CanFree(s, rs, b) && SeesPrev(s, cls, rs, b) && Stocked(s, first, cls)
    && SeesNext(GivePrevStore(s, rs, b), cls - {PrevItem(rs, b)}, rs, b)
    && Stocked(GivePrevStore(s, rs, b), first, cls - {PrevItem(rs, b)})
    && MergedSize(rs, b) == Hi(rs, b) - Lo(rs, b)
  }

  lemma BusyReleasable(s: Store, first: int, rs: Runs, owner: map<int, int>, P: int, b: int)
    requires Consistent(s, first, rs, owner, P) == true && b in rs && !rs[b].free
    ensures Releasable(s, first, Classes(rs, owner), rs, b) == true
  {
    BusyCanBeFreed(s, first, rs, owner, P, b);
    BusySeesPrev(s, first, rs, owner, P, b);
    BusySeesNext(s, first, rs, owner, P, b);
    GivePrevStocked(s, first, rs, owner, P, b);
    LoFacts(rs, P, b);
    GiveFacts(s, first, rs, owner, P, b);
  }

  lemma StockCount(s: Store, first: int, rs: Runs, owner: map<int, int>)
    requires Stocked(s, first, Classes(rs, owner))
    ensures s.start == first + 32 * (|owner| + |s.pool|)
  {
    assert Classes(rs, owner).Keys == owner.Keys;
  }

  /** Items come from the bump pointer only when there are more free runs than ever before. */
  lemma FreedSound(s: Store, first: int, rs: Runs, owner: map<int, int>, P: int, tableSize: int, peak: int, b: int)
    requires Sound(s, first, rs, owner, P, tableSize, peak) && b in rs && !rs[b].free && CanFree(s, rs, b)
    ensures Lo(rs, b) in rs
    ensures var s', item := FreedStore(s, rs, b), NextItem(JoinedStore(s, rs, b));
            var owner' := GiveOwner(rs, owner, b, item);
            Sound(s', first, Give(rs, b, item), owner', P, tableSize, Max(peak, FreeRuns(Give(rs, b, item), P)))
  {
    FreedConsistent(s, first, rs, owner, P, b);
    var s', item := FreedStore(s, rs, b), NextItem(JoinedStore(s, rs, b));
    var rs', owner' := Give(rs, b, item), GiveOwner(rs, owner, b, item);
    FreeRunsBound(s'.items, rs', owner', P);
    FreedCount(s, first, rs, owner, P, b, rs', owner');
  }

  /** As many items as before, or one more and all of them in use. */
  lemma FreedCount(s: Store, first: int, rs: Runs, owner: map<int, int>, P: int, b: int, rs': Runs, owner': map<int,
                   int>)
    requires Consistent(s, first, rs, owner, P) == true && b in rs && !rs[b].free && CanFree(s, rs, b)
    requires Stocked(FreedStore(s, rs, b), first, Classes(rs', owner')) == true
    ensures var pool' := FreedStore(s, rs, b).pool;
            || |owner'| + |pool'| == |owner| + |s.pool|
            || (|owner'| + |pool'| == |owner| + |s.pool| + 1 && pool' == [])
  {
    FreedItem(s, first, rs, owner, P, b);
    NextItemNew(JoinedStore(s, rs, b), first, Classes(rs, owner) - {PrevItem(rs, b)} - {NextRunItem(rs, b)});
    StockCount(s, first, rs, owner);
    StockCount(FreedStore(s, rs, b), first, rs', owner');
  }

  function Max(a: int, b: int): int { if a < b then b else a }

  /** There are no more free runs than at some time before. */
  lemma AtMostPeak(s: Store, first: int, rs: Runs, owner: map<int, int>, P: int, tableSize: int, peak: int)
    requires Sound(s, first, rs, owner, P, tableSize, peak) == true
    ensures 0 <= P && FreeRuns(rs, P) <= peak
  {
    FreeRunsBound(s.items, rs, owner, P);
  }

  lemma FlaggedSound(s: Store, first: int, rs: Runs, owner: map<int, int>, P: int, tableSize: int, peak: int, b: int)
    requires Sound(s, first, rs, owner, P, tableSize, peak) == true && b in rs && !rs[b].free && !rs[b].alloc
    ensures 0 <= b < |s.tags|
    ensures Sound(FlaggedStore(s, b), first, Flagged(rs, b), owner, P, tableSize, peak) == true
  {
    var r := Flagged(rs, b);
    FlaggedPartition(rs, P, b);
    FlaggedTags(s.tags, rs, P, b);
    var s' := FlaggedStore(s, b);
    forall c | c in r ensures ItemOk(s'.items, r, owner, c) == true { assert ItemOk(s.items, rs, owner, c) == true; }
    forall x | x in owner ensures OwnerOk(r, owner, x) == true { assert OwnerOk(rs, owner, x) == true; }
    assert Classes(r, owner) == Classes(rs, owner);
    StockedTags(s, s', first, Classes(rs, owner));
  }

  // ---------------------------------------------------------------------------------
  // The state after construction
  // ---------------------------------------------------------------------------------

  /** cpuAlignAddrHi: up to a whole number of pages. */
  function PagesFor(size: nat): nat { (size + 4095) / 4096 }

  /** The items of all pages fit in the pages set aside for them. */
  lemma Layout(needPages: nat, freeStart: nat, regionsPages: nat)
    requires 0 < freeStart && freeStart % 4096 == 0
    ensures (freeStart + 4096 * regionsPages) % 32 == 0
    ensures needPages * 32 <= 4096 * PagesFor(needPages * 32)
  {
    var q := freeStart / 4096;
    assert freeStart + 4096 * regionsPages == 32 * (128 * (q + regionsPages));
  }

  ghost predicate Blank(s: Store, first: int, P: nat)
  {
    && s.tags == seq(P + 1, _ => ZERO) && s.heads == seq(BUCKETS, _ => NULL) && s.counts == seq(BUCKETS, _ => 0)
    && s.lists == seq(BUCKETS, _ => []) && s.pool == [] && s.poolHead == NULL && s.start == first
  }

  lemma BlankStocked(s: Store, first: int, P: nat)
    requires Blank(s, first, P) && 0 < first && first % 32 == 0
    ensures Stocked(s, first, map[]) == true
  {
    forall k: nat | k < |s.heads| ensures BucketOk(s.items.next, s.items.prev, s.heads, s.lists, map[], k) == true {}
  }

  function OneFreeRun(P: int, item: int): Runs
  {
    map[0 := Run(P, -1, true, item, false)]
  }

  lemma FirstSound(s: Store, first: int, P: nat, tableSize: int)
    requires Blank(s, first, P) && 0 < first && first % 32 == 0 && 1 <= P < INVALID && Bucket(P) < tableSize <= BUCKETS
    ensures Sound(Listed(s, 0, P), first, OneFreeRun(P, first), map[first := 0], P, tableSize, 1) == true
  {
    BlankStocked(s, first, P);
    var rs, owner, s' := OneFreeRun(P, first), map[first := 0], Listed(s, 0, P);
    assert Classes(rs, owner) == map[first := Bucket(P)];
    ListedStocked(s, first, map[], 0, P, Classes(rs, owner));
    assert RunOk(rs, P, 0) == true && TagOk(s'.tags, rs, 0) == true;
    assert ItemOk(s'.items, rs, owner, 0) == true && OwnerOk(rs, owner, first) == true;
    assert Consistent(s', first, rs, owner, P) == true;
  }

  class VirtualMemoryManager {
    const memoryRegions: array<Tag>
    const freeListTable: array<int>
    const freeListTableCounters: array<int>
    const freeListTableSize: nat
    const virtualPages: nat
    const itemsFirst: int
    var items: Items
    var freeListItems: int
    var freeListItemsStart: int

    ghost var runs: Runs
    ghost var owner: map<int, int>
    ghost var lists: seq<seq<int>>
    ghost var pool: seq<int>

    /** The largest number of free runs there ever were at once. */
    ghost var peak: nat

    ghost function Snapshot(): Store
      reads this`items, this`freeListItems, this`freeListItemsStart, this`lists, this`pool, memoryRegions,
            freeListTable, freeListTableCounters
    {
      Store(memoryRegions[..], items, freeListTable[..], freeListTableCounters[..], freeListItems,
            freeListItemsStart, lists, pool)
    }

    /** The two arrays of the lists are two arrays. */
    ghost predicate Separate()
    {
      freeListTable != freeListTableCounters
    }

    ghost predicate Valid()
      reads this, memoryRegions, freeListTable, freeListTableCounters
    {
      Separate() && Sound(Snapshot(), itemsFirst, runs, owner, virtualPages, freeListTableSize, peak)
    }

    /** The constructor: needPages pages from freeStart on, of which the tag table and the items take the first. */
    constructor (needPages: nat, freeStart: nat)
      requires 0 < freeStart && freeStart % 4096 == 0 && needPages < INVALID
      requires PagesFor((needPages + 1) * 8) + PagesFor(needPages * 32) < needPages
      ensures Valid() && fresh(memoryRegions) && fresh(freeListTable) && fresh(freeListTableCounters)
      ensures virtualPages == needPages - (PagesFor((needPages + 1) * 8) + PagesFor(needPages * 32))
      ensures runs == OneFreeRun(virtualPages, itemsFirst) && peak == 1
      ensures itemsFirst + 32 * virtualPages <= freeStart + 4096 * (needPages - virtualPages)
    {
      var regionsPages, itemPages := PagesFor((needPages + 1) * 8), PagesFor(needPages * 32);
      virtualPages := needPages - (regionsPages + itemPages);
      memoryRegions := new Tag[needPages - (regionsPages + itemPages) + 1](_ => ZERO);
      freeListTable := new int[BUCKETS](_ => NULL);
      freeListTableCounters := new int[BUCKETS](_ => 0);
      freeListTableSize := Bucket(needPages) + 1;
      itemsFirst := freeStart + 4096 * regionsPages;
      items := Items(map[], map[], map[], map[]);
      freeListItems, freeListItemsStart := NULL, freeStart + 4096 * regionsPages;
      lists, pool := seq(BUCKETS, _ => []), [];
      Layout(needPages, freeStart, regionsPages);
      new;
      PagesBucket(needPages);
      Log2Order(virtualPages, needPages);
      FirstSound(Snapshot(), itemsFirst, virtualPages, freeListTableSize);
      BlankStocked(Snapshot(), itemsFirst, virtualPages);
      ListAndRecord(0, virtualPages, map[], OneFreeRun(virtualPages, itemsFirst), map[itemsFirst := 0], 1);
    }

    /** Exactly as many items were taken from the bump pointer as there ever were free runs at once, and these never
        exceed the pages: the bump pointer stays in the area the constructor set aside for items. */
    lemma ItemsFit()
      requires Valid()
      ensures freeListItemsStart == itemsFirst + 32 * peak && FreeRuns(runs, virtualPages) <= peak <= virtualPages
    {
      StockCount(Snapshot(), itemsFirst, runs, owner);
      AtMostPeak(Snapshot(), itemsFirst, runs, owner, virtualPages, freeListTableSize, peak);
    }

    method DeleteFreeRegion(tableIndex: nat, region: int, ghost cls: map<int, nat>)
      requires Separate() && Stocked(Snapshot(), itemsFirst, cls) == true && region in cls && cls[region] == tableIndex
      modifies this`items, this`freeListItems, this`lists, this`pool, freeListTable, freeListTableCounters
      ensures tableIndex < BUCKETS
      ensures |old(Snapshot()).heads| == |old(Snapshot()).counts| == |old(Snapshot()).lists| == BUCKETS
      ensures Snapshot() == Unlink(old(Snapshot()), tableIndex, region)
    {
      ghost var s := Snapshot();
      UnlinkBuckets(s, itemsFirst, cls, region);
      if region == freeListTable[tableIndex] {
        freeListTable[tableIndex] := Get(items.next, region);
      } else {
        var rNext := Get(items.next, region);
        items := items.(next := items.next[Get(items.prev, region) := rNext]);
        if rNext != NULL {
          items := items.(prev := items.prev[rNext := Get(items.prev, region)]);
        }
      }
      items := items.(next := items.next[region := freeListItems]);
      freeListItems := region;
      freeListTableCounters[tableIndex] := freeListTableCounters[tableIndex] - 1;
      lists, pool := lists[tableIndex := Without(lists[tableIndex], region)], pool + [region];
    }

    /** The item for a new free run: from the pool, else from the bump pointer. */
    method TakeItem(ghost cls: map<int, nat>) returns (item: int)
      requires Stocked(Snapshot(), itemsFirst, cls) == true
      modifies this`freeListItems, this`freeListItemsStart, this`pool
      ensures item == NextItem(old(Snapshot())) && Snapshot() == Withdraw(old(Snapshot()))
    {
      NextItemNew(Snapshot(), itemsFirst, cls);
      if freeListItems == NULL {
        item := freeListItemsStart;
        freeListItemsStart := freeListItemsStart + 32;
      } else {
        item := freeListItems;
        freeListItems := Get(items.next, item);
        pool := pool[..|pool| - 1];
      }
    }

    /** Fills an item in and puts it at the front of its bucket. */
    method LinkItem(item: int, tblIndex: nat, pageBase: int, numPages: int)
      requires Separate() && tblIndex < freeListTable.Length == freeListTableCounters.Length == |lists|
      modifies this`items, this`lists, freeListTable, freeListTableCounters
      ensures var s := old(Snapshot());
              Snapshot() == s.(
                items := Items(InsertNext(s.items.next, s.heads[tblIndex], item),
                               InsertPrev(s.items.prev[item := NULL], s.heads[tblIndex], item),
                               s.items.pages[item := numPages], s.items.base[item := pageBase]),
                heads := s.heads[tblIndex := item], counts := s.counts[tblIndex := s.counts[tblIndex] + 1],
                lists := s.lists[tblIndex := [item] + s.lists[tblIndex]])
    {
      items := Items(items.next, items.prev[item := NULL], items.pages[item := numPages], items.base[item := pageBase]);
      var flt := freeListTable[tblIndex];
      items := items.(next := items.next[item := flt]);
      if flt != NULL {
        items := items.(prev := items.prev[flt := item]);
      }
      freeListTable[tblIndex] := item;
      freeListTableCounters[tblIndex] := freeListTableCounters[tblIndex] + 1;
      lists := lists[tblIndex := [item] + lists[tblIndex]];
    }

    method AddFreeRegion(pageBase: int, numPages: int, ghost cls: map<int, nat>) returns (item: int)
      requires Separate() && Stocked(Snapshot(), itemsFirst, cls) == true
      requires 0 <= pageBase && 1 <= numPages && pageBase + numPages < memoryRegions.Length
      requires Bucket(numPages) < BUCKETS
      modifies this`items, this`freeListItems, this`freeListItemsStart, this`lists, this`pool
      modifies memoryRegions, freeListTable, freeListTableCounters
      ensures var s := old(Snapshot());
              && |s.heads| == |s.counts| == |s.lists| == BUCKETS && item == NextItem(s)
              && Snapshot() == Listed(s, pageBase, numPages)
    {
      item := TakeItem(cls);
      LinkItem(item, Bucket(numPages), pageBase, numPages);
      memoryRegions[pageBase] := Tag(item, false, false);
      if numPages > 1 {
        memoryRegions[pageBase + numPages - 1] := Tag(item, false, false);
      }
    }

    method SetBusyRegion(tableIndex: nat, region: int, numPages: int, ghost cls: map<int, nat>)
      requires Separate() && Stocked(Snapshot(), itemsFirst, cls) == true && region in cls && cls[region] == tableIndex
      requires Room(Snapshot(), tableIndex, region, numPages) == true
      modifies this`items, this`freeListItems, this`lists, this`pool
      modifies memoryRegions, freeListTable, freeListTableCounters
      ensures Snapshot() == MarkedStore(old(Snapshot()), tableIndex, region, numPages)
    {
      var pagesBase := Get(items.base, region);
      DeleteFreeRegion(tableIndex, region, cls);
      memoryRegions[pagesBase] := Tag(numPages * 4096, true, false);
      if numPages > 1 {
        memoryRegions[pagesBase + numPages - 1] := Tag(0, true, false);
      }
    }

    /** The first search loop of `allocPages`; `rest` is where it stopped in the list. */
    method FindInBucket(numPages: int) returns (minItem: int, rest: int)
      requires Valid() && numPages >= 1 && Bucket(numPages) < BUCKETS
      ensures |lists| == BUCKETS
      ensures var own := lists[Bucket(numPages)];
              && (minItem == NULL ==> NoneFits(items, Scanned(own), numPages)
                                      && rest == if MAX_ITERATIONS < |own| then own[MAX_ITERATIONS] else NULL)
              && (minItem != NULL ==> BestOf(items, Scanned(own), numPages, minItem))
    {
      var tblIndex := Bucket(numPages);
      ghost var list := lists[tblIndex];
      assert BucketOk(items.next, items.prev, freeListTable[..], lists, Classes(runs, owner), tblIndex) == true;
      var maxIterateNodes := if freeListTableCounters[tblIndex] < MAX_ITERATIONS then freeListTableCounters[tblIndex]
        else MAX_ITERATIONS;
      assert Scanned(list) == list[..maxIterateNodes];
      minItem, rest := NULL, NULL;
      if maxIterateNodes > 0 {
        rest := freeListTable[tblIndex];
        var minDelta := 0;
        var idx := 0;
        while idx < maxIterateNodes
          invariant 0 <= idx <= maxIterateNodes
          invariant rest == if idx < |list| then list[idx] else NULL
          invariant BestSoFar(items, list, idx, numPages, minItem, minDelta)
        {
          ListedRun(Snapshot(), itemsFirst, runs, owner, virtualPages, tblIndex, idx);
          BestStep(items, list, idx, numPages, minItem, minDelta);
          if Get(items.pages, rest) >= numPages {
            var delta := Get(items.pages, rest) - numPages;
            if delta == 0 {
              return rest, NULL;
            } else if minItem == NULL || delta < minDelta {
              minItem := rest;
              minDelta := delta;
            }
          }
          rest := Get(items.next, rest);
          idx := idx + 1;
        }
      }
    }

    /** All three search stages of `allocPages`. */
    method Find(numPages: int) returns (item: int, tableIndex: nat, stage: int)
      requires Valid() && numPages >= 1 && Bucket(numPages) < BUCKETS
      ensures |lists| == BUCKETS && FoundInStage(Snapshot(), numPages, item, stage)
      ensures 0 <= stage <= 3 && (stage == 0 <==> item == NULL)
      ensures item != NULL ==> tableIndex < BUCKETS && item in lists[tableIndex]
    {
      var cur;
      item, cur := FindInBucket(numPages);
      tableIndex := Bucket(numPages);
      if item != NULL {
        return item, tableIndex, 1;
      }
      var larger;
      item, larger := FindInLarger(numPages);
      if item != NULL {
        return item, larger, 2;
      }
      item := FindInRest(numPages, cur);
      return item, tableIndex, if item == NULL then 0 else 3;
    }

    /** The second search loop of `allocPages`. */
    method FindInLarger(numPages: int) returns (item: int, tableIndex: nat)
      requires Valid() && numPages >= 1 && Bucket(numPages) < BUCKETS
      ensures |lists| == BUCKETS
      ensures item == NULL ==> NothingLarger(Snapshot(), numPages)
      ensures item != NULL ==> Bucket(numPages) < tableIndex < BUCKETS && lists[tableIndex] != []
                               && item == lists[tableIndex][0]
                                                && forall j :: Bucket(numPages) < j < tableIndex ==> lists[j] == []
    {
      var idx := Bucket(numPages) + 1;
      while idx < freeListTableSize
        invariant Bucket(numPages) < idx
        invariant forall j :: Bucket(numPages) < j < idx && j < BUCKETS ==> lists[j] == []
        decreases freeListTableSize - idx
      {
        if freeListTableCounters[idx] > 0 {
          assert BucketOk(items.next, items.prev, freeListTable[..], lists, Classes(runs, owner), idx) == true;
          ListedRun(Snapshot(), itemsFirst, runs, owner, virtualPages, idx, 0);
          return freeListTable[idx], idx;
        }
        idx := idx + 1;
      }
      forall j: nat | Bucket(numPages) < j < BUCKETS ensures lists[j] == [] {
        if lists[j] != [] {
          ListedRun(Snapshot(), itemsFirst, runs, owner, virtualPages, j, 0);
          assert RunOk(runs, virtualPages, owner[lists[j][0]]) == true;
          Log2Order(runs[owner[lists[j][0]]].n, virtualPages);
        }
      }
      return NULL, 0;
    }

    /** The third search loop of `allocPages`: from item 33 of the bucket on. */
    method FindInRest(numPages: int, from: int) returns (cur: int)
      requires Valid() && numPages >= 1 && Bucket(numPages) < BUCKETS && |lists| == BUCKETS
      requires var own := lists[Bucket(numPages)];
               && NoneFits(items, Scanned(own), numPages) && from == if MAX_ITERATIONS < |own|
                  then own[MAX_ITERATIONS] else NULL
      ensures var own := lists[Bucket(numPages)];
              && (cur == NULL ==> NoneFits(items, own, numPages))
              && (cur != NULL ==>
                    exists i ::
                      && MAX_ITERATIONS <= i < |own| && cur == own[i] && Get(items.pages, cur) >= numPages
                      && NoneFits(items, own[..i], numPages))
    {
      cur := from;
      ghost var list := lists[Bucket(numPages)];
      if cur == NULL {
        if MAX_ITERATIONS < |list| {
          ListedRun(Snapshot(), itemsFirst, runs, owner, virtualPages, Bucket(numPages), MAX_ITERATIONS);
        }
        return;
      }
      ghost var i := MAX_ITERATIONS;
      while cur != NULL
        invariant MAX_ITERATIONS <= i <= |list|
        invariant cur == if i < |list| then list[i] else NULL
        invariant NoneFits(items, list[..i], numPages)
        decreases |list| - i
      {
        ListedRun(Snapshot(), itemsFirst, runs, owner, virtualPages, Bucket(numPages), i);
        if Get(items.pages, cur) >= numPages {
          return;
        }
        NoneFitsStep(items, list, i, numPages);
        cur := Get(items.next, cur);
        i := i + 1;
      }
      if i < |list| { ListedRun(Snapshot(), itemsFirst, runs, owner, virtualPages, Bucket(numPages), i); }
      assert list[..|list|] == list;
    }

    /** Marks the first pages of a free run busy and lists the rest of the run if told to. */
    method AllocAt(tableIndex: nat, region: int, numPages: int, split: bool, ghost cls: map<int,
                   nat>) returns (pageBase: int)
      requires Separate() && Stocked(Snapshot(), itemsFirst, cls) == true && region in cls && cls[region] == tableIndex
      requires Room(Snapshot(), tableIndex, region, numPages) == true
      modifies this`items, this`freeListItems, this`freeListItemsStart, this`lists, this`pool
      modifies memoryRegions, freeListTable, freeListTableCounters
      ensures pageBase == Get(old(items.base), region)
      ensures Snapshot() == if split then AllocStore(old(Snapshot()), tableIndex, region, numPages)
                            else MarkedStore(old(Snapshot()), tableIndex, region, numPages)
    {
      pageBase := Get(items.base, region);
      var delta := Get(items.pages, region) - numPages;
      MarkedStocked(Snapshot(), itemsFirst, cls, region, numPages);
      SetBusyRegion(tableIndex, region, numPages, cls);
      if split && delta > 0 {
        var rest := AddFreeRegion(pageBase + numPages, delta, cls - {region});
      }
    }

    /** Takes what was found. */
    method AllocFound(item: int, tableIndex: nat, numPages: int, split: bool) returns (pageBase: int)
      requires Valid() && item in owner && owner[item] in runs && runs[owner[item]].free
      requires runs[owner[item]].item == item
      requires 1 <= numPages <= runs[owner[item]].n && tableIndex == Bucket(runs[owner[item]].n)
      modifies this`items, this`freeListItems, this`freeListItemsStart, this`lists, this`pool, this`runs, this`owner,
               this`peak
      modifies memoryRegions, freeListTable, freeListTableCounters
      ensures 0 <= pageBase < INVALID && pageBase == old(owner)[item]
      ensures runs == Take(old(runs), pageBase, numPages, item)
      ensures peak == old(peak)
      ensures Taken(pageBase) == true
      ensures Valid() <==> split || old(runs)[pageBase].n == numPages
      ensures !Valid() ==> forall qs, qowner :: !Agrees(Snapshot(), qs, qowner, virtualPages)
    {
      ghost var s, b := Snapshot(), owner[item];
      RunHasRoom(s, itemsFirst, runs, owner, virtualPages, b, numPages);
      if split || runs[b].n == numPages {
        AllocSound(s, itemsFirst, runs, owner, virtualPages, freeListTableSize, peak, b, numPages);
      } else {
        RestLostForAll(s, itemsFirst, runs, owner, virtualPages, freeListTableSize, peak, b, numPages);
      }
      TakenTag(s, runs, virtualPages, tableIndex, item, numPages, split, b);
      pageBase := AllocAt(tableIndex, item, numPages, split, Classes(runs, owner));
      Record(Take(runs, b, numPages, item), TakeOwner(runs, owner, b, numPages), peak);
    }

    method AllocPages(numPages: int) returns (pageBase: int, ghost stage: int)
      requires Valid() && 1 <= numPages <= INVALID
      modifies this`items, this`freeListItems, this`freeListItemsStart, this`lists, this`pool, this`runs, this`owner,
               this`peak
      modifies memoryRegions, freeListTable, freeListTableCounters
      ensures |old(lists)| == BUCKETS && Bucket(numPages) < BUCKETS
      ensures pageBase == INVALID <==> forall b :: b in old(runs) && old(runs)[b].free ==> old(runs)[b].n < numPages
      ensures pageBase == INVALID ==> Snapshot() == old(Snapshot()) && runs == old(runs) && owner == old(owner)
      ensures pageBase != INVALID ==>
                && pageBase in old(runs) && old(runs)[pageBase].free && old(runs)[pageBase].n >= numPages
                && runs == Take(old(runs), pageBase, numPages, old(runs)[pageBase].item)
      ensures pageBase != INVALID ==> FoundInStage(old(Snapshot()), numPages, old(runs)[pageBase].item, stage)
      ensures pageBase != INVALID ==> Taken(pageBase) == true
      ensures pageBase == INVALID ==> Valid()
      ensures Valid() <==> !LateSplit(old(Snapshot()), numPages)
      ensures Valid() ==> peak == Max(old(peak), FreeRuns(runs, virtualPages))
      ensures !Valid() ==> forall qs, qowner :: !Agrees(Snapshot(), qs, qowner, virtualPages)
    {
      PagesBucket(numPages);
      ghost var s := Snapshot();
      var item, tableIndex, found := Find(numPages);
      stage := found;
      LateSplitExact(s, numPages, item, stage);
      if item == NULL {
        forall b | b in runs && runs[b].free ensures runs[b].n < numPages {
          NotFoundComplete(s, itemsFirst, runs, owner, virtualPages, numPages, b);
        }
        AtMostPeak(s, itemsFirst, runs, owner, virtualPages, freeListTableSize, peak);
        return INVALID, 0;
      }
      FoundFits(s, itemsFirst, runs, owner, virtualPages, numPages, item, stage);
      ghost var i: nat :| i < |lists[tableIndex]| && lists[tableIndex][i] == item;
      ListedRun(s, itemsFirst, runs, owner, virtualPages, tableIndex, i);
      pageBase := AllocFound(item, tableIndex, numPages, found != 3);
      if Valid() { AtMostPeak(Snapshot(), itemsFirst, runs, owner, virtualPages, freeListTableSize, peak); }
    }

    /** Takes the free run before the freed one out of its list, if there is one. */
    method JoinPrev(pageBase: int, ghost cls: map<int, nat>) returns (regBase: int, added: int)
      requires Separate() && Stocked(Snapshot(), itemsFirst, cls) == true
      requires SeesPrev(Snapshot(), cls, runs, pageBase) == true
      modifies this`items, this`freeListItems, this`lists, this`pool, memoryRegions, freeListTable,
               freeListTableCounters
      ensures regBase == Lo(runs, pageBase) && added == if regBase < pageBase then runs[regBase].n else 0
      ensures |old(Snapshot()).heads| == |old(Snapshot()).counts| == |old(Snapshot()).lists| == BUCKETS
      ensures Lo(runs, pageBase) < pageBase ==> Lo(runs, pageBase) in runs
                                                && Bucket(runs[Lo(runs, pageBase)].n) < BUCKETS
      ensures Snapshot() == GivePrevStore(old(Snapshot()), runs, pageBase)
    {
      regBase, added := pageBase, 0;
      if pageBase > 0 {
        var tag := memoryRegions[pageBase - 1];
        if !tag.busy {
          var listPtr := tag.word;
          if listPtr != 0 {
            var itemNumPages := Get(items.pages, listPtr);
            regBase, added := Get(items.base, listPtr), itemNumPages;
            DeleteFreeRegion(Bucket(itemNumPages), listPtr, cls);
            memoryRegions[pageBase] := ZERO;
            if itemNumPages > 1 {
              memoryRegions[pageBase - 1] := ZERO;
            }
          }
        }
      }
    }

    /** Takes the free run behind the freed one out of its list, if there is one. */
    method JoinNext(pageBase: int, numPages: int, ghost cls: map<int, nat>) returns (added: int)
      requires Separate() && Stocked(Snapshot(), itemsFirst, cls) == true
      requires SeesNext(Snapshot(), cls, runs, pageBase) == true && numPages == runs[pageBase].n
      modifies this`items, this`freeListItems, this`lists, this`pool, memoryRegions, freeListTable,
               freeListTableCounters
      ensures added == if NextRunItem(runs, pageBase) != NULL then runs[pageBase + numPages].n else 0
      ensures |old(Snapshot()).heads| == |old(Snapshot()).counts| == |old(Snapshot()).lists| == BUCKETS
      ensures NextRunItem(runs, pageBase) != NULL ==> Bucket(runs[pageBase + numPages].n) < BUCKETS
      ensures Snapshot() == GiveNextStore(old(Snapshot()), runs, pageBase)
    {
      added := 0;
      var tag := memoryRegions[pageBase + numPages];
      if !tag.busy {
        var listPtr := tag.word;
        if listPtr != 0 {
          added := Get(items.pages, listPtr);
          DeleteFreeRegion(Bucket(added), listPtr, cls);
          memoryRegions[Get(items.base, listPtr) - 1] := ZERO;
          memoryRegions[Get(items.base, listPtr)] := ZERO;
        }
      }
    }

    method FreePages(pageBase: int) returns (numPages: int)
      requires Valid() && 0 <= pageBase < virtualPages
      modifies this`items, this`freeListItems, this`freeListItemsStart, this`lists, this`pool, this`runs, this`owner,
               this`peak
      modifies memoryRegions, freeListTable, freeListTableCounters
      ensures Valid()
      ensures numPages == 0 <==> !(pageBase in old(runs) && !old(runs)[pageBase].free)
      ensures numPages == 0 ==> Snapshot() == old(Snapshot()) && runs == old(runs) && owner == old(owner)
      ensures numPages != 0 ==>
                && numPages == old(runs)[pageBase].n && Lo(old(runs), pageBase) in old(runs)
                   && Lo(old(runs), pageBase) in runs
                && runs == Give(old(runs), pageBase, runs[Lo(old(runs), pageBase)].item)
      ensures peak == Max(old(peak), FreeRuns(runs, virtualPages))
    {
      numPages := FreeExactly(pageBase);
    }

    /** The same, with the store it leaves. */
    method FreeExactly(pageBase: int) returns (numPages: int)
      requires Valid() == true && 0 <= pageBase < virtualPages
      modifies this`items, this`freeListItems, this`freeListItemsStart, this`lists, this`pool, this`runs, this`owner,
               this`peak
      modifies memoryRegions, freeListTable, freeListTableCounters
      ensures Valid()
      ensures numPages == 0 <==> !(pageBase in old(runs) && !old(runs)[pageBase].free)
      ensures numPages == 0 ==> Snapshot() == old(Snapshot()) && runs == old(runs) && owner == old(owner)
      ensures numPages != 0 ==>
                && numPages == old(runs)[pageBase].n && Lo(old(runs), pageBase) in old(runs)
                   && Lo(old(runs), pageBase) in runs
                && runs == Give(old(runs), pageBase, runs[Lo(old(runs), pageBase)].item)
      ensures numPages != 0 ==> CanFree(old(Snapshot()), old(runs), pageBase)
                                && Snapshot() == FreedStore(old(Snapshot()), old(runs), pageBase)
      ensures peak == Max(old(peak), FreeRuns(runs, virtualPages))
    {
      ghost var s := Snapshot();
      AtMostPeak(s, itemsFirst, runs, owner, virtualPages, freeListTableSize, peak);
      TagTellsBusyBase(s.tags, runs, virtualPages, pageBase);
      if !memoryRegions[pageBase].busy {
        return 0;
      }
      numPages := memoryRegions[pageBase].word / 4096;
      if numPages == 0 {
        return 0;
      }
      BusyReleasable(s, itemsFirst, runs, owner, virtualPages, pageBase);
      FreedItem(s, itemsFirst, runs, owner, virtualPages, pageBase);
      FreedSound(s, itemsFirst, runs, owner, virtualPages, freeListTableSize, peak, pageBase);
      ghost var item := NextItem(JoinedStore(s, runs, pageBase));
      GiveItemAt(runs, virtualPages, pageBase, item);
      ghost var owner' := GiveOwner(runs, owner, pageBase, item);
      ghost var runs' := Give(runs, pageBase, item);
      Release(pageBase, numPages, Classes(runs, owner), runs', owner', Max(peak, FreeRuns(runs', virtualPages)));
    }

    /** A busy run starts at the page, and its tag says so; either everything agrees, or no partition agrees with the
        tags. */
    ghost predicate Taken(pageBase: int)
      reads this, memoryRegions, freeListTable, freeListTableCounters
    {
      && (Valid() || forall qs, qowner :: !Agrees(Snapshot(), qs, qowner, virtualPages))
      && TakenAt(Snapshot(), runs, virtualPages, pageBase)
    }

    /** Sets VMM_REG_ALLOC_FLAG of a busy run. If no partition agreed with the tags, none does afterwards. */
    method SetAllocFlag(pageBase: int)
      requires Taken(pageBase)
      modifies this`runs, this`owner, this`peak, memoryRegions
      ensures runs == Flagged(old(runs), pageBase) && owner == old(owner) && peak == old(peak)
      ensures Valid() <==> old(Valid())
      ensures !Valid() ==> forall qs, qowner :: !Agrees(Snapshot(), qs, qowner, virtualPages)
    {
      ghost var s := Snapshot();
      if Valid() {
        FlaggedSound(s, itemsFirst, runs, owner, virtualPages, freeListTableSize, peak, pageBase);
      } else {
        StillDisagrees(s, virtualPages, pageBase);
        NeverSound(FlaggedStore(s, pageBase), virtualPages);
      }
      memoryRegions[pageBase] := memoryRegions[pageBase].(alloc := true);
      Record(Flagged(runs, pageBase), owner, peak);
      assert Snapshot() == FlaggedStore(s, pageBase);
    }

    /** Joins a busy run with its free neighbours and lists the result. */
    method Release(pageBase: int, numPages: int, ghost cls: map<int, nat>, ghost runs': Runs, ghost owner': map<int,
                   int>, ghost peak': nat)
      requires Separate() && Releasable(Snapshot(), itemsFirst, cls, runs, pageBase) == true
      requires numPages == runs[pageBase].n
      requires Stocked(JoinedStore(Snapshot(), runs, pageBase), itemsFirst,
                       cls - {PrevItem(runs, pageBase)} - {NextRunItem(runs, pageBase)}) == true
      modifies this`items, this`freeListItems, this`freeListItemsStart, this`lists, this`pool, this`runs, this`owner,
               this`peak
      modifies memoryRegions, freeListTable, freeListTableCounters
      ensures Snapshot() == FreedStore(old(Snapshot()), old(runs), pageBase)
      ensures runs == runs' && owner == owner' && peak == peak'
    {
      ReleaseFacts(Snapshot(), itemsFirst, cls, runs, pageBase);
      var regBase, regSize := JoinNeighbours(pageBase, numPages, cls);
      ListAndRecord(regBase, regSize, cls - {PrevItem(runs, pageBase)} - {NextRunItem(runs, pageBase)}, runs',
                    owner', peak');
    }

    method ListAndRecord(pageBase: int, numPages: int, ghost cls: map<int, nat>, ghost runs': Runs,
                         ghost owner': map<int, int>, ghost peak': nat)
      requires Separate() && Stocked(Snapshot(), itemsFirst, cls) == true
      requires 0 <= pageBase && 1 <= numPages && pageBase + numPages < memoryRegions.Length
      requires Bucket(numPages) < BUCKETS
      modifies this`items, this`freeListItems, this`freeListItemsStart, this`lists, this`pool, this`runs, this`owner,
               this`peak
      modifies memoryRegions, freeListTable, freeListTableCounters
      ensures |old(Snapshot()).heads| == |old(Snapshot()).counts| == |old(Snapshot()).lists| == BUCKETS
      ensures Snapshot() == Listed(old(Snapshot()), pageBase, numPages)
      ensures runs == runs' && owner == owner' && peak == peak'
    {
      var region := AddFreeRegion(pageBase, numPages, cls);
      Record(runs', owner', peak');
    }

    /** Takes the free neighbours of a busy run in. */
    method JoinNeighbours(pageBase: int, numPages: int, ghost cls: map<int, nat>) returns (regBase: int, regSize: int)
      requires Separate() && Releasable(Snapshot(), itemsFirst, cls, runs, pageBase) == true
      requires numPages == runs[pageBase].n
      modifies this`items, this`freeListItems, this`lists, this`pool, memoryRegions, freeListTable,
               freeListTableCounters
      ensures Snapshot() == JoinedStore(old(Snapshot()), runs, pageBase)
      ensures regBase == Lo(runs, pageBase) && regSize == MergedSize(runs, pageBase)
    {
      var before;
      ghost var s := Snapshot();
      regBase, before := JoinPrev(pageBase, cls);
      assert Snapshot() == GivePrevStore(s, runs, pageBase);
      var behind := JoinNext(pageBase, numPages, cls - {PrevItem(runs, pageBase)});
      regSize := before + numPages + behind;
    }

    /** The new partition; nothing else changes. */
    ghost method Record(runs': Runs, owner': map<int, int>, peak': nat)
      modifies this`runs, this`owner, this`peak
      ensures Snapshot() == old(Snapshot()) && runs == runs' && owner == owner' && peak == peak'
    {
      runs, owner, peak := runs', owner', peak';
    }
  }
  // ---------------------------------------------------------------------------------
  // A run of calls after which stage three drops a rest
  // ---------------------------------------------------------------------------------

  /** 33 slots, of six pages and then of four each, with a page between any two of them and one behind the last. */
  const SLOTS := 33
  const ALL_PAGES := 167

  function SlotSize(k: nat): nat { if k == 0 then 6 else 4 }

  function SlotBase(k: nat): nat { if k == 0 then 0 else 2 + 5 * k }

  function WallBase(k: nat): nat { 6 + 5 * k }

  ghost predicate SlotIs(rs: Runs, k: nat, free: bool)
  {
    && SlotBase(k) in rs && rs[SlotBase(k)].n == SlotSize(k) && rs[SlotBase(k)].free == free
    && WallBase(k) in rs && rs[WallBase(k)].n == 1 && !rs[WallBase(k)].free
  }

  /** The first K slots are allocated, and nothing else. */
  ghost predicate Laid(rs: Runs, K: nat)
  {
    && (forall k: nat {:trigger SlotIs(rs, k, false)} :: k < K ==> SlotIs(rs, k, false))
    && (K < SLOTS ==> SlotBase(K) in rs && rs[SlotBase(K)].free && rs[SlotBase(K)].n == ALL_PAGES - SlotBase(K))
    && (forall b :: b in rs && rs[b].free ==> K < SLOTS && b == SlotBase(K))
  }

  ghost predicate SlotBelow(rs: Runs, k: nat, j: nat) { SlotIs(rs, k, k < j) }

  /** Of the slots the first j are free again. */
  ghost predicate Opened(rs: Runs, j: nat)
  {
    && (forall k: nat {:trigger SlotBelow(rs, k, j)} :: k < SLOTS ==> SlotBelow(rs, k, j))
    && (forall b :: b in rs && rs[b].free ==> rs[b].n <= 6)
  }

  /** Their items are in one list, that of the first slot last. */
  ghost predicate OldestLast(s: Store, j: nat)
  {
    && |s.lists| == BUCKETS && |s.lists[2]| == j
    && (forall i :: 0 <= i < j ==> Get(s.items.pages, s.lists[2][i]) == if i == j - 1 then 6 else 4)
  }

  /** With a single free run stage three is not reached. */
  lemma NoLateSplit(s: Store, first: int, rs: Runs, owner: map<int, int>, P: int, n: int, c: int)
    requires Consistent(s, first, rs, owner, P) == true && |s.lists| == BUCKETS && Bucket(n) < BUCKETS
    requires forall b :: b in rs && rs[b].free ==> b == c
    ensures !LateSplit(s, n)
  {
    assert BucketOk(s.items.next, s.items.prev, s.heads, s.lists, Classes(rs, owner), Bucket(n)) == true;
    if |s.lists[Bucket(n)]| > 1 {
      ListedRun(s, first, rs, owner, P, Bucket(n), 0);
      ListedRun(s, first, rs, owner, P, Bucket(n), 1);
    }
  }

  /** Taking a slot and the page behind it from the rest of the pages. */
  lemma LaidNext(rs: Runs, K: nat, item: int, item': int)
    requires Laid(rs, K) && K < SLOTS && Partition(rs, ALL_PAGES)
    ensures var r := Take(rs, SlotBase(K), SlotSize(K), item);
            && WallBase(K) in r && r[WallBase(K)].free && r[WallBase(K)].n == ALL_PAGES - WallBase(K)
            && (forall b :: b in r && r[b].free ==> b == WallBase(K))
            && Laid(Take(r, WallBase(K), 1, item'), K + 1)
  {
    var r := Take(rs, SlotBase(K), SlotSize(K), item);
    assert RunOk(rs, ALL_PAGES, SlotBase(K)) == true;
    forall b | b in rs ensures b != WallBase(K) {
      assert Apart(rs, SlotBase(K), b) == true && RunOk(rs, ALL_PAGES, b) == true;
    }
    var q := Take(r, WallBase(K), 1, item');
    forall k: nat | k < K + 1 ensures SlotIs(q, k, false) == true {
      if k < K { assert SlotIs(rs, k, false) == true; }
    }
  }

  /** Freeing a slot between walls joins it with nothing. */
  lemma OpenedNext(rs: Runs, j: nat, item: int)
    requires Opened(rs, j) && j < SLOTS && Partition(rs, ALL_PAGES)
    ensures var b := SlotBase(j);
            && b in rs && !rs[b].free && rs[b].n == SlotSize(j) && Lo(rs, b) == b && Hi(rs, b) == b + rs[b].n
            && NextRunItem(rs, b) == NULL && Opened(Give(rs, b, item), j + 1)
  {
    var b, j' := SlotBase(j), j + 1;
    assert SlotBelow(rs, j, j) == true && RunOk(rs, ALL_PAGES, b) == true;
    assert -1 in rs ==> RunOk(rs, ALL_PAGES, -1) == true;
    if j > 0 { assert SlotBelow(rs, j - 1, j) == true && RunOk(rs, ALL_PAGES, WallBase(j - 1)) == true; }
    var r := Give(rs, b, item);
    forall k: nat | k < SLOTS ensures SlotBelow(r, k, j') == true { assert SlotBelow(rs, k, j) == true; }
  }

  lemma OldestLastNext(s: Store, first: int, rs: Runs, owner: map<int, int>, j: nat)
    requires Consistent(s, first, rs, owner, ALL_PAGES) == true && Opened(rs, j) && j < SLOTS && OldestLast(s, j)
    requires CanFree(s, rs, SlotBase(j))
    ensures OldestLast(FreedStore(s, rs, SlotBase(j)), j + 1)
  {
    OpenedNext(rs, j, 0);
    var b, x := SlotBase(j), NextItem(s);
    assert Bucket(6) == 2 && Bucket(4) == 2;
    NextItemNew(s, first, Classes(rs, owner));
    var s' := FreedStore(s, rs, b);
    assert s' == Listed(s, b, SlotSize(j));
    assert s'.lists[2] == [x] + s.lists[2];
    forall i | 0 <= i < j + 1 ensures Get(s'.items.pages, s'.lists[2][i]) == if i == j then 6 else 4 {
      if i > 0 { ListedRun(s, first, rs, owner, ALL_PAGES, 2, i - 1); }
    }
  }

  /** Once all slots are free, a request for five pages reaches stage three. */
  lemma AllOpened(s: Store, first: int, rs: Runs, owner: map<int, int>)
    requires Consistent(s, first, rs, owner, ALL_PAGES) == true && Opened(rs, SLOTS) && OldestLast(s, SLOTS)
    ensures Bucket(5) < BUCKETS && LateSplit(s, 5)
  {
    var own := s.lists[2];
    assert Bucket(5) == 2 && Bucket(6) == 2;
    forall k: nat | 2 < k < BUCKETS ensures s.lists[k] == [] {
      if s.lists[k] != [] {
        ListedRun(s, first, rs, owner, ALL_PAGES, k, 0);
        Log2Order(rs[owner[s.lists[k][0]]].n, 6);
      }
    }
    assert own[..32] == Scanned(own) && NoneFits(s.items, own[..32], 5);
    assert FoundInStage(s, 5, own[32], 3);
  }

  /** Allocates slot K and the page behind it. */
  method LaySlot(v: VirtualMemoryManager, K: nat)
    requires v.Valid() == true && v.virtualPages == ALL_PAGES && Laid(v.runs, K) == true && K < SLOTS
    modifies v, v.memoryRegions, v.freeListTable, v.freeListTableCounters
    ensures v.Valid() == true && Laid(v.runs, K + 1) == true
  {
    ghost var rs := v.runs;
    ghost var item, stage := rs[SlotBase(K)].item, 0;
    LaidNext(rs, K, item, item);
    PagesBucket(SlotSize(K));
    NoLateSplit(v.Snapshot(), v.itemsFirst, rs, v.owner, ALL_PAGES, SlotSize(K), SlotBase(K));
    var base;
    base, stage := v.AllocPages(SlotSize(K));
    ghost var item' := v.runs[WallBase(K)].item;
    LaidNext(rs, K, item, item');
    PagesBucket(1);
    NoLateSplit(v.Snapshot(), v.itemsFirst, v.runs, v.owner, ALL_PAGES, 1, WallBase(K));
    base, stage := v.AllocPages(1);
  }

  /** Frees slot j. */
  method OpenSlot(v: VirtualMemoryManager, j: nat)
    requires v.Valid() == true && v.virtualPages == ALL_PAGES && Opened(v.runs, j) == true && j < SLOTS
    requires OldestLast(v.Snapshot(), j) == true
    modifies v, v.memoryRegions, v.freeListTable, v.freeListTableCounters
    ensures v.Valid() == true && Opened(v.runs, j + 1) == true && OldestLast(v.Snapshot(), j + 1) == true
  {
    ghost var s, rs := v.Snapshot(), v.runs;
    OpenedNext(rs, j, 0);
    BusyCanBeFreed(s, v.itemsFirst, rs, v.owner, ALL_PAGES, SlotBase(j));
    OldestLastNext(s, v.itemsFirst, rs, v.owner, j);
    var n := v.FreeExactly(SlotBase(j));
    OpenedNext(rs, j, v.runs[SlotBase(j)].item);
  }

  /** From the constructor on, 66 allocations and 33 frees lead to a state in which a request for five pages makes stage
      three take them from a run of six pages. */
  method LateSplitRun() returns (v: VirtualMemoryManager)
    ensures fresh(v) && fresh(v.memoryRegions) && fresh(v.freeListTable) && fresh(v.freeListTableCounters)
    ensures v.Valid() && Bucket(5) < BUCKETS && |v.lists| == BUCKETS && LateSplit(v.Snapshot(), 5)
  {
    v := new VirtualMemoryManager(170, 4096);
    var k := 0;
    while k < SLOTS
      invariant 0 <= k <= SLOTS && v.Valid() == true && v.virtualPages == ALL_PAGES && Laid(v.runs, k) == true
      invariant fresh(v) && fresh(v.memoryRegions) && fresh(v.freeListTable) && fresh(v.freeListTableCounters)
    {
      LaySlot(v, k);
      k := k + 1;
    }
    AllLaid(v.Snapshot(), v.itemsFirst, v.runs, v.owner);
    var j := 0;
    while j < SLOTS
      invariant 0 <= j <= SLOTS && v.Valid() == true && v.virtualPages == ALL_PAGES && Opened(v.runs, j) == true
      invariant OldestLast(v.Snapshot(), j) == true
      invariant fresh(v) && fresh(v.memoryRegions) && fresh(v.freeListTable) && fresh(v.freeListTableCounters)
    {
      OpenSlot(v, j);
      j := j + 1;
    }
    AllOpened(v.Snapshot(), v.itemsFirst, v.runs, v.owner);
  }

  lemma AllLaid(s: Store, first: int, rs: Runs, owner: map<int, int>)
    requires Consistent(s, first, rs, owner, ALL_PAGES) == true && Laid(rs, SLOTS)
    ensures Opened(rs, 0) == true && OldestLast(s, 0) == true
  {
    forall k: nat | k < SLOTS ensures SlotBelow(rs, k, 0) == true { assert SlotIs(rs, k, false) == true; }
    if s.lists[2] != [] { ListedRun(s, first, rs, owner, ALL_PAGES, 2, 0); }
  }

  /** After that request no partition of the pages agrees with the tags. */
  method PagesLost() returns (v: VirtualMemoryManager)
    ensures !v.Valid() && forall qs, qowner :: !Agrees(v.Snapshot(), qs, qowner, v.virtualPages)
  {
    v := LateSplitRun();
    ghost var stage;
    var base;
    base, stage := v.AllocPages(5);
  }
}
