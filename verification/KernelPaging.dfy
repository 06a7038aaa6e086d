/** The page manager of the kernel (kernel/paging.cpp): the recursive walk over a range of pages, the walk
    to one page, and the operations that are callbacks on the leaf entries they reach. */
module KernelPaging {
  import opened PageTables

  /** The bits `setPagesFlags` clears: the frame address or none of it, and flags. */
  datatype Mask = Mask(addr: bool, flags: Flags)

  const PAGE_MASK := Mask(false, Flags(true, true, 0xFFF))

  /** What the walks call on every leaf entry: the lambdas of `mapPages`, `setPagesFlags` and `freeRamPages`. */
  datatype Callback = Map(phys: int, flags: Flags) | SetFlags(mask: Mask,
                                                              flags: Flags) | FreeRam(virtualAllocated: bool)

  function Apply(cb: Callback, e: Entry): Entry
  {
    match cb
    case Map(phys, flags) => Entry(phys, flags)
    case SetFlags(mask, flags) =>
      Entry(if mask.addr then 0 else e.addr,
            Flags((e.flags.present && !mask.flags.present) || flags.present, (e.flags.alloc && !mask.flags.alloc)
                  || flags.alloc,
                  (e.flags.rest & !mask.flags.rest) | flags.rest))
    case FreeRam(again) =>
      if e.flags.present && e.addr != 0 then Entry(0, e.flags.(present := false, alloc := e.flags.alloc || again))
        else e
  }

  lemma AllFlagsReplaced(flags: Flags, e: Entry)
    ensures Apply(SetFlags(PAGE_MASK, flags), e) == e.(flags := flags)
  {
    assert e.flags.rest & !PAGE_MASK.flags.rest == 0;
  }

  /** The callback after k calls. */
  function After(cb: Callback, k: int): Callback
  {
    if cb.Map? then cb.(phys := cb.phys + 4096 * k) else cb
  }

  /** The call keeps the ownership of frames: it frees nothing but RAM, and else the entry goes on to map the RAM it
      did. */
  predicate CallOk(keys: set<int>, cb: Callback, e: Entry)
  {
    if cb.FreeRam? then e.flags.present && e.addr != 0 ==> e.addr in keys else SameRam(keys, e, Apply(cb, e))
  }

  ghost predicate Allowed(t: Tables, a: int, b: int, cb: Callback)
  {
    forall p {:trigger View(t, p)} :: a <= p <= b ==> CallOk(t.owner.Keys, After(cb, p - a), View(t, p))
  }

  /** Frames are owned as they should be, and the walk keeps that. */
  ghost predicate Fit(t: Tables, a: int, b: int, cb: Callback)
  {
    Valid(t) && Allowed(t, a, b, cb)
  }

  /** Frames go back to the stack only if they are owned as they should be. */
  ghost predicate Permitted(t: Tables, a: int, b: int, cb: Callback)
  {
    Walkable(t) && (cb.FreeRam? ==> Fit(t, a, b, cb))
  }

  /** The callback was applied to the leaf entries of pages a to b, in that order, and to nothing else. */
  ghost predicate Processed(t: Tables, t': Tables, a: int, b: int, cb: Callback)
  {
    && Grows(t, t') && HeldFrames(t') == HeldFrames(t)
    && (cb.FreeRam? || (OnlyDirsTaken(t, t') && Frames(t') == Frames(t)))
    && forall p {:trigger View(t', p)} :: View(t', p) == if a <= p <= b then Apply(After(cb, p - a), View(t, p))
       else View(t, p)
  }

  ghost predicate Keeps(t: Tables, t': Tables, a: int, b: int, cb: Callback)
  {
    Fit(t, a, b, cb) ==> Valid(t')
  }

  ghost predicate AnyPresent(t: Tables, a: int, b: int)
  {
    exists p {:trigger View(t, p)} :: a <= p <= b && View(t, p).flags.present
  }

  function Pages(a: int, b: int): seq<int>
  {
    if b < a then [] else seq(b - a + 1, k => a + k)
  }

  lemma CallsJoin(calls: seq<int>, a: int, b: int, c: int)
    requires a <= b + 1 && b <= c
    ensures calls + Pages(a, b) + Pages(b + 1, c) == calls + Pages(a, c)
  {
    assert Pages(a, b) + Pages(b + 1, c) == Pages(a, c);
  }

  lemma Chain(t: Tables, t1: Tables, t2: Tables, a: int, b: int, c: int, cb: Callback)
    requires a <= b + 1 && b <= c && Processed(t, t1, a, b, cb) == true
    requires Processed(t1, t2, b + 1, c, After(cb, b + 1 - a)) == true
    ensures Processed(t, t2, a, c, cb) == true
    ensures AnyPresent(t, a, c) <==> AnyPresent(t, a, b) || AnyPresent(t1, b + 1, c)
  {
    forall p ensures View(t2, p) == if a <= p <= c then Apply(After(cb, p - a), View(t, p)) else View(t, p) {
      var v := View(t1, p);
    }
    assert forall p :: b + 1 <= p <= c ==> View(t1, p) == View(t, p);
  }

  lemma StillAllowed(t: Tables, t1: Tables, a: int, b: int, c: int, cb: Callback)
    requires a <= b + 1 && b <= c && Processed(t, t1, a, b, cb) == true && Allowed(t, a, c, cb) == true
    ensures Allowed(t1, b + 1, c, After(cb, b + 1 - a)) == true && Allowed(t, a, b, cb) == true
  {
    forall p | b + 1 <= p <= c ensures CallOk(t1.owner.Keys, After(After(cb, b + 1 - a), p - (b + 1)), View(t1, p)) {
      assert CallOk(t.owner.Keys, After(cb, p - a), View(t, p));
    }
  }

  lemma StillFit(t: Tables, t1: Tables, a: int, b: int, c: int, cb: Callback)
    requires a <= b + 1 && b <= c && Processed(t, t1, a, b, cb) == true && Keeps(t, t1, a, b, cb) == true
    ensures Fit(t, a, c, cb) ==> Fit(t1, b + 1, c, After(cb, b + 1 - a)) == true
  {
    if Fit(t, a, c, cb) { StillAllowed(t, t1, a, b, c, cb); }
  }

  /** A walk from page a on has come to page b: the callback was called on each leaf entry on the way, once and in
      ascending order, and it was noticed whether one was present. */
  ghost predicate Progress(t: Tables, t': Tables, a: int, b: int, cb: Callback, cb': Callback,
                           calls: seq<int>, calls': seq<int>, need: bool, need': bool)
  {
    && Walkable(t') && Processed(t, t', a, b, cb) && Keeps(t, t', a, b, cb) && cb' == After(cb, b + 1 - a)
    && calls' == calls + Pages(a, b) && (need' <==> need || AnyPresent(t, a, b))
  }

  /** Directories were added, with frames from the stack, and nothing else was done. */
  ghost predicate Extended(t: Tables, t': Tables)
  {
    && Walkable(t') && Grows(t, t') && SameView(t, t') && OnlyDirsTaken(t, t') && HeldFrames(t') == HeldFrames(t)
    && Frames(t') == Frames(t) && (Valid(t) ==> Valid(t'))
  }

  lemma WithDirExtends(t: Tables, n: Node, i: int, flags: Flags)
    requires Walkable(t) && Inner(t, n, i) && Child(n, i) !in t.dirs && |t.free| > 0
    ensures t.dirs[n] in t.mem && 0 <= i < |t.mem[t.dirs[n]]| && t.dirs[n] != t.free[|t.free| - 1]
    ensures Extended(t, WithDir(t, n, i, flags)) == true
    ensures WithDir(t, n, i, flags).dirs.Keys == t.dirs.Keys + {Child(n, i)}
  {
    WithDirWalkable(t, n, i, flags);
    assert NodeOk(t, n) == true && FreeOk(t, |t.free| - 1) == true;
    if Valid(t) { WithDirValid(t, n, i, flags); }
  }

  lemma ExtendedTwice(t: Tables, t1: Tables, t2: Tables)
    requires Extended(t, t1) == true && Extended(t1, t2) == true
    ensures Extended(t, t2) == true
  {
    forall p ensures View(t2, p) == View(t, p) { var v := View(t1, p); }
    forall f | f in t.owner
      ensures f in t2.owner && (t2.owner[f] == t.owner[f] || (t.owner[f].Free? && t2.owner[f].Dir?))
    {
      var o := t1.owner[f];
    }
  }

  lemma ProgressNone(t: Tables, t': Tables, a: int, cb: Callback, calls: seq<int>, need: bool)
    requires Extended(t, t') == true
    ensures Progress(t, t', a, a - 1, cb, cb, calls, calls, need, need) == true
  {
  }

  lemma ProgressOne(t: Tables, t': Tables, p: int, cb: Callback, calls: seq<int>, need: bool)
    requires Walkable(t') == true && Processed(t, t', p, p, cb) == true && Keeps(t, t', p, p, cb) == true
    ensures Progress(t, t', p, p, cb, After(cb, 1), calls, calls + [p], need, need || View(t, p).flags.present) == true
  {
    assert Pages(p, p) == [p];
    assert AnyPresent(t, p, p) <==> View(t, p).flags.present;
  }

  lemma ProgressJoin(t: Tables, t1: Tables, t2: Tables, a: int, b: int, c: int, cb: Callback, cb1: Callback,
                     cb2: Callback,
                     calls: seq<int>, calls1: seq<int>, calls2: seq<int>, need: bool, need1: bool, need2: bool)
    requires a <= b + 1 && b <= c
    requires Progress(t, t1, a, b, cb, cb1, calls, calls1, need, need1) == true
    requires Progress(t1, t2, b + 1, c, cb1, cb2, calls1, calls2, need1, need2) == true
    ensures Progress(t, t2, a, c, cb, cb2, calls, calls2, need, need2) == true
  {
    Chain(t, t1, t2, a, b, c, cb);
    CallsJoin(calls, a, b, c);
    assert cb2 == After(cb, c + 1 - a);
    if Fit(t, a, c, cb) { StillFit(t, t1, a, b, c, cb); }
  }

  /** A walk below the level takes frames for the directories it needs. It fails if it does not get all of them: if it
      may create them, because no frame is left. */
  ghost predicate Cost(t: Tables, t': Tables, level: int, a: int, b: int, cb: Callback, creates: bool, ok: bool)
  {
    && Walked(t, t', level, a, b, ok) && (cb.FreeRam? || Frames(t') == Frames(t))
    && (if creates then !ok ==> t'.free == [] else t'.dirs == t.dirs)
  }

  lemma CostStuck(t: Tables, n: Node, i: int, a: int, b: int, cb: Callback, creates: bool)
    requires 1 <= n.level < 4 && Base(Child(n, i)) <= a <= b < Base(Child(n, i)) + Size(n.level)
    requires Child(n, i) !in t.dirs && (creates ==> t.free == [])
    ensures Cost(t, t, n.level, a, b, cb, creates, false) == true
  {
    WalkedStuck(t, n, i, a, b);
  }

  lemma CostJoin(t: Tables, t1: Tables, t2: Tables, level: int, a: int, b: int, c: int, cb: Callback, cb1: Callback,
                 creates: bool, ok: bool)
    requires 1 <= level && a <= b + 1 && b <= c && (cb1.FreeRam? <==> cb.FreeRam?)
    requires Cost(t, t1, level, a, b, cb, creates, true) == true
    requires Cost(t1, t2, level, b + 1, c, cb1, creates, ok) == true
    ensures Cost(t, t2, level, a, c, cb, creates, ok) == true
  {
    WalkedJoin(t, t1, t2, level, a, b, c, ok);
  }

  lemma CostShort(t: Tables, t1: Tables, level: int, a: int, b: int, c: int, cb: Callback, creates: bool)
    requires 1 <= level && a <= b + 1 && b <= c && Cost(t, t1, level, a, b, cb, creates, false) == true
    ensures Cost(t, t1, level, a, c, cb, creates, false) == true
  {
    WalkedShort(t, t1, level, a, b, c);
  }

  /** Leaf entries are reached without further directories. */
  lemma CostLeaves(t: Tables, t': Tables, a: int, b: int, cb: Callback, cb': Callback, calls: seq<int>,
                   calls': seq<int>, need: bool, need': bool, creates: bool)
    requires Progress(t, t', a, b, cb, cb', calls, calls', need, need') == true && t'.dirs == t.dirs
    ensures Cost(t, t', 4, a, b, cb, creates, true) == true
  {
  }

  lemma CostChild(t: Tables, t1: Tables, t2: Tables, n: Node, i: int, a: int, b: int, cb: Callback, creates: bool,
                  ok: bool)
    requires 1 <= n.level < 4 && Base(Child(n, i)) <= a <= b < Base(Child(n, i)) + Size(n.level)
    requires (forall m :: m in t.dirs ==> m in t1.dirs) && Child(n, i) in t1.dirs && Frames(t1) == Frames(t)
    requires forall m :: m in t1.dirs ==> m in t.dirs || m == Child(n, i)
    requires creates || t1.dirs == t.dirs
    requires Cost(t1, t2, n.level + 1, a, b, cb, creates, ok) == true
    ensures Cost(t, t2, n.level, a, b, cb, creates, ok) == true
  {
    WalkedChild(t, t1, t2, n, i, a, b, ok);
  }

  // ---------------------------------------------------------------------------------
  // Pages of a directory
  // ---------------------------------------------------------------------------------

  lemma ChildBase(n: Node, i: int)
    requires 1 <= n.level < 4
    ensures Base(Child(n, i)) == Base(n) + i * Size(n.level)
    ensures Size(n.level) == 512 * Size(n.level + 1)
  {
  }

  /** Every page in a to b has a leaf directory. */
  ghost predicate AllDirs(t: Tables, a: int, b: int)
  {
    forall p {:trigger Node(4, p / 512)} :: a <= p <= b ==> Node(4, p / 512) in t.dirs
  }

  /** A range has all directories it needs exactly if every page has its leaf directory. */
  lemma AllBelowIsAllDirs(t: Tables, a: nat, b: int)
    requires Tree(t)
    ensures AllBelow(t, 1, a, b) <==> AllDirs(t, a, b)
  {
    if AllBelow(t, 1, a, b) {
      forall p: int | a <= p <= b ensures Node(4, p / 512) in t.dirs {
        PathNode(Node(4, p / 512), p);
        assert Below(Node(4, p / 512), 1, a, b) == true;
      }
    } else if AllDirs(t, a, b) {
      var n :| Below(n, 1, a, b) && n !in t.dirs;
      var p := if a < Base(n) then Base(n) else a;
      PathNode(n, p);
      DirsAbove(t, p);
    }
  }

  /** Division by the number of pages per entry. */
  lemma Divide(level: int, x: int)
    requires 1 <= level < 4 && 0 <= x
    ensures x == x / Size(level) * Size(level) + x % Size(level) && 0 <= x % Size(level) < Size(level)
    ensures 0 <= x / Size(level)
    ensures x <= 512 * Size(level) ==> x / Size(level) <= 512
    ensures x < 512 * Size(level) ==> x / Size(level) < 512
    ensures (x + Size(level)) / Size(level) == x / Size(level) + 1
  {
  }

  lemma DivideUnique(level: int, x: int, q: int, r: int)
    requires 1 <= level < 4 && x == q * Size(level) + r && 0 <= r < Size(level)
    ensures x / Size(level) == q && x % Size(level) == r
  {
  }

  /** The ranges below one entry, if the walk stays below it, and of the last entry. */
  lemma LevelSplit(level: int, pageStart: int, pageEnd: int)
    requires 1 <= level < 4 && 0 <= pageStart <= pageEnd < 512 * Size(level)
    ensures var size, first := Size(level), pageStart / Size(level);
            && 0 <= first < 512 && pageStart == first * size + pageStart % size && 0 <= pageStart % size < size
            && (pageStart + size) / size * size == (first + 1) * size
               && (pageStart + size) / size * size / size == first + 1
            && (pageEnd < (first + 1) * size ==> pageEnd == first * size + pageEnd % size
                                                 && pageStart % size <= pageEnd % size < size)
  {
    Divide(level, pageStart);
    DivideUnique(level, (pageStart / Size(level) + 1) * Size(level), pageStart / Size(level) + 1, 0);
    var size, first := Size(level), pageStart / Size(level);
    if pageEnd < (first + 1) * size { DivideUnique(level, pageEnd, first, pageEnd - first * size); }
  }

  lemma FirstOfMany(level: int, first: int, pageEnd: int)
    requires 1 <= level < 4 && 0 <= first && (first + 1) * Size(level) <= pageEnd < 512 * Size(level)
    ensures first < 511 && first + 1 <= pageEnd / Size(level)
  {
  }

  lemma LevelEnd(level: int, pageEnd: int)
    requires 1 <= level < 4 && 0 <= pageEnd < 512 * Size(level)
    ensures var size, last := Size(level), (pageEnd + 1) / Size(level);
            && 0 <= last <= 512 && pageEnd + 1 == last * size + (pageEnd + 1) % size && 0 <= (pageEnd + 1) % size < size
            && ((pageEnd + 1) % size != 0 ==> last < 512 && pageEnd % size == (pageEnd + 1) % size - 1
                                              && pageEnd / size == last)
            && ((pageEnd + 1) % size == 0 ==> pageEnd / size == last - 1)
  {
    Divide(level, pageEnd + 1);
    var size, last := Size(level), (pageEnd + 1) / Size(level);
    if (pageEnd + 1) % size != 0 { DivideUnique(level, pageEnd, last, (pageEnd + 1) % size - 1); }
    else { DivideUnique(level, pageEnd, last - 1, size - 1); }
  }

  lemma LeafAt(t: Tables, n: Node, i: int, p: int)
    requires Tree(t) == true && n.level == 4 && n in t.dirs && 0 <= i < 512 && p == Base(n) + i
    ensures HasLeaf(t, p) == true && Node(4, p / 512) == n && p % 512 == i
  {
    assert NodeOk(t, n) == true;
  }

  /** What is permitted for a walk is permitted for its first part and for its rest. */
  lemma PermittedPart(t: Tables, a: int, b: int, c: int, cb: Callback)
    requires Permitted(t, a, c, cb) && b <= c
    ensures Permitted(t, a, b, cb) == true
  {
    if cb.FreeRam? { assert Allowed(t, a, b, cb) == true; }
  }

  lemma StillPermitted(t: Tables, t1: Tables, a: int, b: int, c: int, cb: Callback, cb1: Callback, calls: seq<int>,
                       calls1: seq<int>, need: bool, need1: bool)
    requires a <= b + 1 && b <= c && Permitted(t, a, c, cb) == true
    requires Progress(t, t1, a, b, cb, cb1, calls, calls1, need, need1) == true
    ensures Permitted(t1, b + 1, c, cb1) == true
  {
    StillFit(t, t1, a, b, c, cb);
  }

  lemma ChildPermitted(t: Tables, t1: Tables, a: int, b: int, cb: Callback, calls: seq<int>, need: bool)
    requires a <= b && Permitted(t, a, b, cb) == true && Extended(t, t1) == true
    ensures Progress(t, t1, a, a - 1, cb, cb, calls, calls, need, need) == true && Permitted(t1, a, b, cb) == true
  {
    ProgressNone(t, t1, a, cb, calls, need);
    StillPermitted(t, t1, a, a - 1, b, cb, cb, calls, calls, need, need);
  }

  /** The flags of directories on the way: (pageFlags & PAGE_FLAG_USER) | PAGE_FLAG_PRESENT | PAGE_FLAG_WRITE. */
  function DirFlags(pageFlags: Flags): Flags { Flags(true, false, (pageFlags.rest & 4) | 2) }

  /** Frame f of RAM is mapped by one of pages a to b. */
  ghost predicate Maps(t: Tables, a: int, b: int, f: int)
  {
    f in t.owner && exists p {:trigger View(t, p)} :: a <= p <= b && View(t, p).flags.present && View(t, p).addr == f
  }

  /** A walk that gives frames back leaves exactly these on the stack besides those that were there. */
  lemma FreedFrames(t: Tables, t': Tables, a: int, b: int, again: bool, f: int)
    requires Valid(t) && Valid(t') && Processed(t, t', a, b, FreeRam(again)) && t'.dirs == t.dirs
    ensures f in t'.free <==> f in t.free || Maps(t, a, b, f)
  {
    if f in t.owner {
      assert OwnerOk(t, f) == true && OwnerOk(t', f) == true;
      assert f in HeldFrames(t) <==> f in HeldFrames(t');
      OwnerFacts(t, f);
      OwnerFacts(t', f);
      if t'.owner[f].Leaf? { var v := View(t, t'.owner[f].page); assert LeafOk(t, t'.owner[f].page) == true; }
      if t.owner[f].Leaf? { var v := View(t', t.owner[f].page); assert LeafOk(t', t.owner[f].page) == true; }
    } else {
      forall k | 0 <= k < |t.free| ensures t.free[k] != f { assert FreeOk(t, k) == true; }
      forall k | 0 <= k < |t'.free| ensures t'.free[k] != f { assert FreeOk(t', k) == true; }
    }
  }

  /** Pages a to b map nothing but RAM. */
  ghost predicate OnlyRam(t: Tables, a: int, b: int)
  {
    forall p {:trigger View(t, p)} ::
      a <= p <= b && View(t, p).flags.present && View(t, p).addr != 0 ==> View(t, p).addr in t.owner
  }

  /** The frames of pages a to b went back to the stack: no other frame changed its place, and no other page its entry.
      */
  ghost predicate RamFreed(t: Tables, t': Tables, a: int, b: int, again: bool)
  {
    && Grows(t, t') && HeldFrames(t') == HeldFrames(t)
    && (forall p {:trigger View(t', p)} ::
          View(t', p) == if a <= p <= b then Apply(FreeRam(again), View(t, p)) else View(t, p))
    && (forall f :: f in t'.free <==> f in t.free || Maps(t, a, b, f))
  }

  lemma FreesRam(t: Tables, t': Tables, a: int, b: int, again: bool)
    requires Valid(t) && Valid(t') && Processed(t, t', a, b, FreeRam(again)) && t'.dirs == t.dirs
    ensures RamFreed(t, t', a, b, again) == true
  {
    forall f ensures f in t'.free <==> f in t.free || Maps(t, a, b, f) { FreedFrames(t, t', a, b, again, f); }
  }

  lemma OwnerFacts(t: Tables, f: int)
    requires Valid(t) && f in t.owner
    ensures f in t.free <==> t.owner[f].Free?
    ensures forall n :: n in t.dirs && t.dirs[n] == f ==> t.owner[f] == Dir(n)
    ensures forall p {:trigger View(t, p)} :: View(t, p).flags.present && View(t, p).addr == f ==> t.owner[f] == Leaf(p)
    ensures t.owner[f].Dir? ==> t.owner[f].n in t.dirs && t.dirs[t.owner[f].n] == f
  {
    assert OwnerOk(t, f) == true;
    forall k | 0 <= k < |t.free| && t.free[k] == f ensures t.owner[f] == Free(k) { assert FreeOk(t, k) == true; }
    forall n | n in t.dirs && t.dirs[n] == f ensures t.owner[f] == Dir(n) { assert NodeOk(t, n) == true; }
    forall p | View(t, p).flags.present && View(t, p).addr == f ensures t.owner[f] == Leaf(p) {
      assert LeafOk(t, p) == true;
    }
  }

  /** The entry is allocated on demand and still has no frame. */
  predicate Faults(e: Entry) { !e.flags.present && e.flags.alloc }

  /** The entry after the fault. */
  function Faulted(e: Entry, frame: int): Entry { Entry(frame, e.flags.(present := true, alloc := false)) }

  /** The first and last page of a range of bytes, in the 48 bits an address has. */
  function FirstPage(virtualBase: nat): nat { virtualBase % 0x1_0000_0000_0000 / 4096 }

  function LastPage(virtualBase: nat, size: nat): int
  {
    if size == 0 then FirstPage(virtualBase) - 1 else (size + virtualBase % 0x1_0000_0000_0000 + 4095) / 4096 - 1
  }

  /** The range does not wrap around, and its root slots hold 4 KB mappings only. */
  ghost predicate InSlots(slots: set<int>, virtualBase: nat, size: nat)
  {
    size + virtualBase % 0x1_0000_0000_0000 <= 0x1_0000_0000_0000
    && forall i :: FirstPage(virtualBase) / Size(1) <= i <= LastPage(virtualBase, size) / Size(1) ==> i in slots
  }

  /** A walk that maps or sets flags keeps ownership exactly if it was meant to. */
  lemma KeptExact(t: Tables, t': Tables, a: int, b: int, cb: Callback)
    requires Valid(t) && !cb.FreeRam? && Processed(t, t', a, b, cb) && Keeps(t, t', a, b, cb)
    ensures Valid(t') <==> Allowed(t, a, b, cb)
  {
    if Valid(t') {
      forall p | a <= p <= b ensures CallOk(t.owner.Keys, After(cb, p - a), View(t, p)) {
        KeptMeansSame(t, t', p);
        var v := View(t', p);
      }
    }
  }

  /** The callback, which maps or sets flags, was applied to pages a to b; ownership was kept exactly if each of them
      goes on to map the RAM it did. */
  ghost predicate Changed(t: Tables, t': Tables, a: int, b: int, cb: Callback)
  {
    Processed(t, t', a, b, cb) && (Valid(t) ==> (Valid(t') <==> Allowed(t, a, b, cb)))
  }

  lemma IsChanged(t: Tables, t': Tables, a: int, b: int, cb: Callback, cb': Callback, calls: seq<int>,
                  calls': seq<int>, need: bool, need': bool)
    requires Progress(t, t', a, b, cb, cb', calls, calls', need, need') == true && !cb.FreeRam?
    ensures Changed(t, t', a, b, cb) == true
  {
    if Valid(t) { KeptExact(t, t', a, b, cb); }
  }

  /** The flags of pages a to b were replaced by others without PAGE_FLAG_PRESENT; ownership was kept exactly if they
      had no RAM. */
  ghost predicate FlagsReplaced(t: Tables, t': Tables, a: int, b: int, flags: Flags)
  {
    && Grows(t, t') && HeldFrames(t') == HeldFrames(t) && OnlyDirsTaken(t, t')
    && (forall p {:trigger View(t', p)} ::
          View(t', p) == if a <= p <= b then View(t, p).(flags := flags) else View(t, p))
    && (Valid(t) ==>
          (Valid(t') <==> forall p {:trigger View(t, p)} :: a <= p <= b ==> !Owns(t.owner.Keys, View(t, p))))
  }

  lemma ReplacesFlags(t: Tables, t': Tables, a: int, b: int, flags: Flags)
    requires Changed(t, t', a, b, SetFlags(PAGE_MASK, flags)) == true && !flags.present
    ensures FlagsReplaced(t, t', a, b, flags) == true
  {
    var cb := SetFlags(PAGE_MASK, flags);
    forall p ensures View(t', p) == if a <= p <= b then View(t, p).(flags := flags) else View(t, p) {
      AllFlagsReplaced(flags, View(t, p));
    }
    forall p ensures CallOk(t.owner.Keys, After(cb, p - a), View(t, p)) <==> !Owns(t.owner.Keys, View(t, p)) {
      AllFlagsReplaced(flags, View(t, p));
    }
    AllowedWithoutRam(t, a, b, cb);
  }

  lemma AllowedWithoutRam(t: Tables, a: int, b: int, cb: Callback)
    requires forall p {:trigger View(t, p)} ::
               CallOk(t.owner.Keys, After(cb, p - a), View(t, p)) <==> !Owns(t.owner.Keys, View(t, p))
    ensures Allowed(t, a, b, cb) <==>
            forall p {:trigger View(t, p)} :: a <= p <= b ==> !Owns(t.owner.Keys, View(t, p))
  {
  }

  /** Frame f, which was held, is mapped by page p. */
  ghost predicate Mapped(t: Tables, t': Tables, p: int, e: Entry)
  {
    && Walkable(t') && Grows(t, t') && HeldFrames(t') == HeldFrames(t) - {e.addr} && Frames(t') == Frames(t)
    && (forall q :: View(t', q) == if q == p then e else View(t, q))
    && (Valid(t) ==> (Valid(t') <==> !Owns(t.owner.Keys, View(t, p))))
    && (forall f {:trigger t'.owner[f]} :: f in t.owner && f != e.addr ==>
          f in t'.owner && (t'.owner[f] == t.owner[f] || (t.owner[f].Free? && t'.owner[f].Dir?)))
  }

  lemma InstallMaps(t: Tables, t1: Tables, p: int, e: Entry)
    requires Extended(t, t1) == true && HasLeaf(t1, p) && e.flags.present
    requires e.addr in t.owner && t.owner[e.addr] == Held
    ensures Mapped(t, Installed(t1, p, e), p, e) == true
  {
    var t2 := Installed(t1, p, e);
    assert e.addr in HeldFrames(t) && e.addr in HeldFrames(t1);
    InstallWalkable(t1, p, e);
    if Valid(t) { InstallExact(t1, p, e); }
    forall q ensures View(t2, q) == if q == p then e else View(t, q) { var v := View(t1, q); }
    forall f | f in t.owner && f != e.addr
      ensures f in t2.owner && (t2.owner[f] == t.owner[f] || (t.owner[f].Free? && t2.owner[f].Dir?))
    {
      var o := t1.owner[f];
    }
  }

  class PagingManager {
    const root: int
    ghost const slots: set<int>
    var mem: map<int, seq<Entry>>
    var free: seq<int>
    ghost var dirs: map<Node, int>
    ghost var owner: map<int, Owner>

    /** The pages whose leaf entries the callback was called on. */
    ghost var calls: seq<int>

    ghost function Snapshot(): Tables
      reads this
    {
      Tables(mem, free, dirs, owner, slots)
    }

    /** The tables can be walked from the root. */
    ghost predicate Rooted()
      reads this
    {
      Walkable(Snapshot()) && Node(1, 0) in dirs && dirs[Node(1, 0)] == root
    }

    /** Besides, every frame of RAM has its owner. */
    ghost predicate Good()
      reads this
    {
      Rooted() && Valid(Snapshot())
    }

    /** The kernel takes over the tables of the boot loader, and the frames on the stack of its page allocator. */
    constructor (root: int, mem: map<int, seq<Entry>>, free: seq<int>, ghost dirs: map<Node, int>,
                 ghost slots: set<int>)
      requires HandedOver(mem, free, dirs, slots) && Node(1, 0) in dirs && dirs[Node(1, 0)] == root
      ensures Good() && HeldFrames(Snapshot()) == {} && Snapshot() == FirstTables(mem, free, dirs, slots)
    {
      FirstValid(mem, free, dirs, slots);
      this.root, this.slots, this.mem, this.free, this.dirs := root, slots, mem, free, dirs;
      this.owner, this.calls := FirstTables(mem, free, dirs, slots).owner, [];
    }

    /** The child directory of entry `index`, which is created if there is none; the kernel panics if it may
        not be created or no frame is left. */
    method AccessToChildDir(dir: int, index: int, dirFlags: Flags, ghost n: Node) returns (ok: bool, child: int)
      requires Walkable(Snapshot()) && Inner(Snapshot(), n, index) && dirs[n] == dir
      modifies this`mem, this`free, this`dirs, this`owner
      ensures ok ==> Child(n, index) in dirs && dirs[Child(n, index)] == child
      ensures Extended(old(Snapshot()), Snapshot()) == true
      ensures dirFlags == NONE || !ok ==> Snapshot() == old(Snapshot())
      ensures ok <==> Child(n, index) in old(dirs) || (dirFlags != NONE && old(free) != [])
      ensures ok ==> dirs.Keys == old(dirs).Keys + {Child(n, index)}
    {
      ghost var t := Snapshot();
      assert NodeOk(t, n) == true && EntryOk(t, n, index) == true;
      if Child(n, index) in dirs { assert NodeOk(t, Child(n, index)) == true; }
      if mem[dir][index] == EMPTY {
        if dirFlags == NONE || free == [] {
          return false, 0;
        }
        WithDirExtends(t, n, index, dirFlags);
        NewDir(dir, index, dirFlags, n);
        assert EntryOk(Snapshot(), n, index) == true;
      }
      return true, mem[dir][index].addr;
    }

    /** A zeroed frame becomes the directory of entry `index`. */
    method NewDir(dir: int, index: int, dirFlags: Flags, ghost n: Node)
      requires n in dirs && dirs[n] == dir && dir in mem && 0 <= index < |mem[dir]| && |free| > 0
      requires dir != free[|free| - 1]
      modifies this`mem, this`free, this`dirs, this`owner
      ensures Snapshot() == WithDir(old(Snapshot()), n, index, dirFlags)
    {
      var f := free[|free| - 1];
      free := free[..|free| - 1];
      mem := mem[f := Zeros()];
      mem := mem[dir := mem[dir][index := Entry(f, dirFlags)]];
      dirs, owner := dirs[Child(n, index) := f], owner[f := Dir(Child(n, index))];
    }

    /** The callback on one leaf entry. */
    method CallLeaf(dir: int, index: int, cb: Callback, ghost p: int)
      requires Permitted(Snapshot(), p, p, cb) == true
      requires HasLeaf(Snapshot(), p) && dirs[Node(4, p / 512)] == dir && index == p % 512
      modifies this`mem, this`free, this`owner, this`calls
      ensures Walkable(Snapshot()) && Processed(old(Snapshot()), Snapshot(), p, p, cb) && calls == old(calls) + [p]
      ensures Keeps(old(Snapshot()), Snapshot(), p, p, cb)
    {
      ghost var t := Snapshot();
      var entry := mem[dir][index];
      var entry' := Apply(cb, entry);
      assert After(cb, 0) == cb && View(t, p) == entry;
      WithLeafWalkable(t, p, entry');
      if cb.FreeRam? && entry.flags.present && entry.addr != 0 {
        ReleaseLeaf(t, p, entry');
        free := free + [entry.addr];
        owner := owner[entry.addr := Free(|t.free|)];
      } else if Fit(t, p, p, cb) {
        assert CallOk(owner.Keys, cb, View(t, p));
        ReplaceSame(t, p, entry');
      }
      mem := mem[dir := mem[dir][index := entry']];
      calls := calls + [p];
    }

    /** One leaf entry of a range walk. */
    method ProcessLeaf(dir: int, index: int, cb: Callback, needShootdown: bool, ghost p: int) returns (cb': Callback,
                       need: bool)
      requires Permitted(Snapshot(), p, p, cb) == true
      requires HasLeaf(Snapshot(), p) && dirs[Node(4, p / 512)] == dir && index == p % 512
      modifies this`mem, this`free, this`owner, this`calls
      ensures Progress(old(Snapshot()), Snapshot(), p, p, cb, cb', old(calls), calls, needShootdown, need) == true
    {
      need := needShootdown || mem[dir][index].flags.present;
      ghost var t := Snapshot();
      assert mem[dir][index] == View(t, p);
      CallLeaf(dir, index, cb, p);
      ProgressOne(t, Snapshot(), p, cb, old(calls), needShootdown);
      cb' := After(cb, 1);
    }

    /** The same, as the next step of a walk that started at page a and has come to page `done`. */
    method ProcessNextLeaf(dir: int, index: int, cb1: Callback, need1: bool, ghost n: Node,
                           ghost t: Tables, ghost a: int, ghost done: int, ghost last: int,
                           ghost cb: Callback, ghost calls0: seq<int>, ghost need0: bool)
      returns (cb': Callback, need: bool)
      requires Progress(t, Snapshot(), a, done, cb, cb1, calls0, calls, need0, need1) == true && a <= done + 1 <= last
      requires n.level == 4 && n in dirs && dirs[n] == dir && 0 <= index < 512 && done + 1 == Base(n) + index
      requires Permitted(t, a, last, cb) == true
      modifies this`mem, this`free, this`owner, this`calls
      ensures Progress(t, Snapshot(), a, done + 1, cb, cb', calls0, calls, need0, need) == true
    {
      ghost var t1, calls1, p := Snapshot(), calls, done + 1;
      LeafAt(t1, n, index, p);
      PermittedPart(t, a, p, last, cb);
      StillPermitted(t, t1, a, done, p, cb, cb1, calls0, calls, need0, need1);
      cb', need := ProcessLeaf(dir, index, cb1, need1, p);
      ProgressJoin(t, t1, Snapshot(), a, done, p, cb, cb1, cb', calls0, calls1, calls, need0, need1, need);
    }

    /** The last level of a range walk. */
    method ProcessLeaves(dir: int, pageStart: int, pageEnd: int, cb: Callback, needShootdown: bool,
                         ghost n: Node, ghost a: int, ghost b: int)
      returns (cb': Callback, need: bool)
      requires Permitted(Snapshot(), a, b, cb) == true && n.level == 4 && n in dirs && dirs[n] == dir
      requires 0 <= pageStart <= pageEnd < 512 && a == Base(n) + pageStart && b == Base(n) + pageEnd
      modifies this`mem, this`free, this`owner, this`calls
      ensures Progress(old(Snapshot()), Snapshot(), a, b, cb, cb', old(calls), calls, needShootdown, need) == true
    {
      ghost var t := Snapshot();
      cb', need := cb, needShootdown;
      var page := pageStart;
      ghost var done := a - 1;
      ProgressNone(t, t, a, cb, calls, need);
      while page <= pageEnd
        invariant pageStart <= page <= pageEnd + 1 && n in dirs && dirs[n] == dir && done == Base(n) + page - 1
        invariant Progress(t, Snapshot(), a, done, cb, cb', old(calls), calls, needShootdown, need) == true
      {
        cb', need := ProcessNextLeaf(dir, page, cb', need, n, t, a, done, b, cb, old(calls), needShootdown);
        done := done + 1;
        page := page + 1;
      }
      assert done == b;
    }

    /** The part of a range walk below entry `index` of a directory: pages `from` to `to` of the child, which are
        pages a to b. */
    method ProcessChild(level: int, dir: int, index: int, from: int, to: int, dirFlags: Flags, cb: Callback,
                        needShootdown: bool,
                        ghost n: Node, ghost a: int, ghost b: int)
      returns (ok: bool, cb': Callback, need: bool)
      requires Permitted(Snapshot(), a, b, cb) == true && 1 <= level < 4 && n.level == level
      requires Inner(Snapshot(), n, index) && dirs[n] == dir
      requires 0 <= from <= to < Size(level) && a == Base(n) + index * Size(level) + from && b == a + to - from
      modifies this`mem, this`free, this`dirs, this`owner, this`calls
      ensures ok ==> Progress(old(Snapshot()), Snapshot(), a, b, cb, cb', old(calls), calls, needShootdown, need) ==
                     true
      ensures Cost(old(Snapshot()), Snapshot(), level, a, b, cb, dirFlags != NONE, ok) == true
      decreases 4 - level, 0
    {
      ghost var t := Snapshot();
      ChildBase(n, index);
      var child;
      ok, child := AccessToChildDir(dir, index, dirFlags, n);
      if !ok {
        CostStuck(t, n, index, a, b, cb, dirFlags != NONE);
        return false, cb, needShootdown;
      }
      ghost var t1 := Snapshot();
      ChildPermitted(t, t1, a, b, cb, calls, needShootdown);
      ok, cb', need := ProcessPagesLevel(level + 1, child, from, to, dirFlags, cb, needShootdown, Child(n, index), a,
                                         b);
      CostChild(t, t1, Snapshot(), n, index, a, b, cb, dirFlags != NONE, ok);
      if ok {
        ProgressJoin(t, t1, Snapshot(), a, a - 1, b, cb, cb, cb', old(calls), old(calls), calls, needShootdown,
                     needShootdown, need);
      }
    }

    /** The same, as the next step of a walk that started at page a and has come to page `done`. */
    method ProcessNext(level: int, dir: int, index: int, to: int, dirFlags: Flags, cb1: Callback, need1: bool,
                       ghost n: Node, ghost t: Tables, ghost a: int, ghost done: int, ghost b: int, ghost last: int,
                       ghost cb: Callback, ghost calls0: seq<int>, ghost need0: bool)
      returns (ok: bool, cb': Callback, need: bool)
      requires Progress(t, Snapshot(), a, done, cb, cb1, calls0, calls, need0, need1) == true && a <= done + 1
      requires b <= last
      requires 1 <= level < 4 && n.level == level && Inner(t, n, index) && t.dirs[n] == dir
      requires 0 <= to < Size(level) && done + 1 == Base(n) + index * Size(level) && b == done + 1 + to
      requires Permitted(t, a, last, cb) == true
      requires Cost(t, Snapshot(), level, a, done, cb, dirFlags != NONE, true) == true
      modifies this`mem, this`free, this`dirs, this`owner, this`calls
      ensures ok ==> Progress(t, Snapshot(), a, b, cb, cb', calls0, calls, need0, need) == true
      ensures Cost(t, Snapshot(), level, a, b, cb, dirFlags != NONE, ok) == true
      decreases 4 - level, 1
    {
      ghost var t1, calls1 := Snapshot(), calls;
      PermittedPart(t, a, b, last, cb);
      StillPermitted(t, t1, a, done, b, cb, cb1, calls0, calls, need0, need1);
      ok, cb', need := ProcessChild(level, dir, index, 0, to, dirFlags, cb1, need1, n, done + 1, b);
      CostJoin(t, t1, Snapshot(), level, a, done, b, cb, cb1, dirFlags != NONE, ok);
      if ok { ProgressJoin(t, t1, Snapshot(), a, done, b, cb, cb1, cb', calls0, calls1, calls, need0, need1, need); }
    }

    /** Pages `pageStart` to `pageEnd` of a directory, counted from its first page: pages a to b. */
    method ProcessPagesLevel(level: int, dir: int, pageStart: int, pageEnd: int, dirFlags: Flags, cb: Callback,
                             needShootdown: bool,
                             ghost n: Node, ghost a: int, ghost b: int)
      returns (ok: bool, cb': Callback, need: bool)
      requires Permitted(Snapshot(), a, b, cb) == true
      requires n.level == level && n in dirs && dirs[n] == dir && 1 <= level <= 4
      requires 0 <= pageStart <= pageEnd < 512 * Size(level) && a == Base(n) + pageStart && b == Base(n) + pageEnd
      requires level == 1 ==> forall i :: pageStart / Size(1) <= i <= pageEnd / Size(1) ==> i in slots
      modifies this`mem, this`free, this`dirs, this`owner, this`calls
      ensures ok ==> Progress(old(Snapshot()), Snapshot(), a, b, cb, cb', old(calls), calls, needShootdown, need) ==
                     true
      ensures Cost(old(Snapshot()), Snapshot(), level, a, b, cb, dirFlags != NONE, ok) == true
      decreases 4 - level, 5
    {
      if level == 4 {
        cb', need := ProcessLeaves(dir, pageStart, pageEnd, cb, needShootdown, n, a, b);
        CostLeaves(old(Snapshot()), Snapshot(), a, b, cb, cb', old(calls), calls, needShootdown, need,
                   dirFlags != NONE);
        ok := true;
        return;
      }
      ok, cb', need := ProcessLevel(level, dir, pageStart, pageEnd, dirFlags, cb, needShootdown, n, a, b);
    }

    /** The same above the last level. */
    method ProcessLevel(level: int, dir: int, pageStart: int, pageEnd: int, dirFlags: Flags, cb: Callback,
                        needShootdown: bool,
                        ghost n: Node, ghost a: int, ghost b: int)
      returns (ok: bool, cb': Callback, need: bool)
      requires Permitted(Snapshot(), a, b, cb) == true
      requires n.level == level && n in dirs && dirs[n] == dir && 1 <= level < 4
      requires 0 <= pageStart <= pageEnd < 512 * Size(level) && a == Base(n) + pageStart && b == Base(n) + pageEnd
      requires level == 1 ==> forall i :: pageStart / Size(1) <= i <= pageEnd / Size(1) ==> i in slots
      modifies this`mem, this`free, this`dirs, this`owner, this`calls
      ensures ok ==> Progress(old(Snapshot()), Snapshot(), a, b, cb, cb', old(calls), calls, needShootdown, need) ==
                     true
      ensures Cost(old(Snapshot()), Snapshot(), level, a, b, cb, dirFlags != NONE, ok) == true
      decreases 4 - level, 4
    {
      var size := Size(level);
      var firstLimit := (pageStart + size) / size * size;
      var first := pageStart / size;
      LevelSplit(level, pageStart, pageEnd);
      if pageEnd < firstLimit {
        ok, cb', need := ProcessChild(level, dir, first, pageStart % size, pageEnd % size, dirFlags, cb,
                                      needShootdown, n, a, b);
        return;
      }
      ok, cb', need := ProcessMany(level, dir, first, pageStart % size, pageEnd, dirFlags, cb, needShootdown, n, a,
                                   Base(n) + (first + 1) * size - 1, b);
    }

    /** The same over several entries, from page `from` of entry `first` on. */
    method ProcessMany(level: int, dir: int, first: int, from: int, pageEnd: int, dirFlags: Flags, cb: Callback,
                       needShootdown: bool,
                       ghost n: Node, ghost a: int, ghost done: int, ghost b: int)
      returns (ok: bool, cb': Callback, need: bool)
      requires Permitted(Snapshot(), a, b, cb) == true
      requires n.level == level && n in dirs && dirs[n] == dir && 1 <= level < 4
      requires 0 <= first && 0 <= from < Size(level) && (first + 1) * Size(level) <= pageEnd < 512 * Size(level)
      requires a == Base(n) + first * Size(level) + from && b == Base(n) + pageEnd
      requires done == Base(n) + (first + 1) * Size(level) - 1
      requires level == 1 ==> forall i :: first <= i <= pageEnd / Size(1) ==> i in slots
      modifies this`mem, this`free, this`dirs, this`owner, this`calls
      ensures ok ==> Progress(old(Snapshot()), Snapshot(), a, b, cb, cb', old(calls), calls, needShootdown, need) ==
                     true
      ensures Cost(old(Snapshot()), Snapshot(), level, a, b, cb, dirFlags != NONE, ok) == true
      decreases 4 - level, 3
    {
      ghost var t, calls0 := Snapshot(), calls;
      FirstOfMany(level, first, pageEnd);
      PermittedPart(t, a, done, b, cb);
      ok, cb', need := ProcessChild(level, dir, first, from, Size(level) - 1, dirFlags, cb, needShootdown, n, a, done);
      if !ok {
        CostShort(t, Snapshot(), level, a, done, b, cb, dirFlags != NONE);
        return;
      }
      ok, cb', need := ProcessRest(level, dir, first + 1, pageEnd, dirFlags, cb', need, n, t, a, done, b, cb, calls0,
                                   needShootdown);
    }

    /** The entries of a directory after the first one of a walk, up to page `pageEnd`. */
    method ProcessRest(level: int, dir: int, from: int, pageEnd: int, dirFlags: Flags, cb1: Callback, need1: bool,
                       ghost n: Node, ghost t: Tables, ghost a: int, ghost done0: int, ghost b: int,
                       ghost cb: Callback, ghost calls0: seq<int>, ghost need0: bool)
      returns (ok: bool, cb': Callback, need: bool)
      requires 1 <= level < 4 && n.level == level && n in t.dirs && t.dirs[n] == dir && slots == t.slots && 0 < from
      requires level == 1 ==> forall i :: from <= i <= pageEnd / Size(1) ==> i in slots
      requires from * Size(level) <= pageEnd < 512 * Size(level) && b == Base(n) + pageEnd
      requires a <= done0 + 1 == Base(n) + from * Size(level)
      requires Progress(t, Snapshot(), a, done0, cb, cb1, calls0, calls, need0, need1) == true
      requires Permitted(t, a, b, cb) == true
      requires Cost(t, Snapshot(), level, a, done0, cb, dirFlags != NONE, true) == true
      modifies this`mem, this`free, this`dirs, this`owner, this`calls
      ensures ok ==> Progress(t, Snapshot(), a, b, cb, cb', calls0, calls, need0, need) == true
      ensures Cost(t, Snapshot(), level, a, b, cb, dirFlags != NONE, ok) == true
      decreases 4 - level, 2
    {
      ok, cb', need := true, cb1, need1;
      var size := Size(level);
      ghost var done := done0;
      LevelEnd(level, pageEnd);
      var lastPage := (pageEnd + 1) / size;
      var index := from;
      while index < lastPage
        invariant from <= index <= lastPage && done == Base(n) + index * size - 1
        invariant Progress(t, Snapshot(), a, done, cb, cb', calls0, calls, need0, need) == true
        invariant Cost(t, Snapshot(), level, a, done, cb, dirFlags != NONE, true) == true
        invariant ok
      {
        ghost var next := done + size;
        ok, cb', need := ProcessNext(level, dir, index, size - 1, dirFlags, cb', need, n, t, a, done, next, b, cb,
                                     calls0, need0);
        if !ok {
          CostShort(t, Snapshot(), level, a, next, b, cb, dirFlags != NONE);
          return;
        }
        done := next;
        index := index + 1;
      }
      if (pageEnd + 1) % size != 0 {
        ok, cb', need := ProcessNext(level, dir, lastPage, pageEnd % size, dirFlags, cb', need, n, t, a, done, b, b,
                                     cb, calls0, need0);
      }
    }

    /** `processPages`: the walk over the pages of `size` bytes from `virtualBase` on. */
    method ProcessPages(virtualBase: nat, size: nat, dirFlags: Flags, cb: Callback) returns (ok: bool, need: bool)
      requires Rooted() && InSlots(slots, virtualBase, size)
      requires Permitted(Snapshot(), FirstPage(virtualBase), LastPage(virtualBase, size), cb)
      modifies this`mem, this`free, this`dirs, this`owner, this`calls
      ensures var t, t', a, b := old(Snapshot()), Snapshot(), FirstPage(virtualBase), LastPage(virtualBase, size);
              && (ok ==> Rooted() && Progress(t, t', a, b, cb, After(cb, b + 1 - a), old(calls), calls, false,
                                              need) == true)
              && (dirFlags == NONE ==> dirs == old(dirs) && (ok <==> AllDirs(t, a, b)))
              && Cost(t, t', 1, a, b, cb, dirFlags != NONE, ok) == true
              && (dirFlags != NONE && !cb.FreeRam? ==> (ok <==> Missing(t, a, b) <= |t.free|))
    {
      ghost var t, a, b := Snapshot(), FirstPage(virtualBase), LastPage(virtualBase, size);
      if size == 0 {
        ProgressNone(t, t, a, cb, calls, false);
        WalkedNone(t, 1, a);
        WalkExact(t, t, a, b, true);
        return true, false;
      }
      var cb';
      AllBelowIsAllDirs(t, a, b);
      ok, cb', need := ProcessPagesLevel(1, root, FirstPage(virtualBase), LastPage(virtualBase, size), dirFlags, cb,
                                         false, Node(1, 0), a, b);
      if dirFlags != NONE && !cb.FreeRam? { WalkExact(t, Snapshot(), a, b, ok); }
    }

    /** The loop of `processPage` down to the leaf directory of a page. */
    method WalkToLeaf(p: nat, dirFlags: Flags) returns (ok: bool, dir: int)
      requires Rooted() && p < 0x10_0000_0000 && p / Size(1) in slots
      modifies this`mem, this`free, this`dirs, this`owner
      ensures Rooted() && Extended(old(Snapshot()), Snapshot()) == true
      ensures ok ==> HasLeaf(Snapshot(), p) && dirs[Node(4, p / 512)] == dir
      ensures dirFlags == NONE ==> Snapshot() == old(Snapshot()) && (ok <==> Node(4, p / 512) in old(dirs))
      ensures Walked(old(Snapshot()), Snapshot(), 1, p, p, ok) == true
      ensures !ok && dirFlags != NONE ==> free == []
    {
      ghost var t := Snapshot();
      Nested(p);
      if Node(4, p / 512) in dirs { DirsAbove(t, p); }
      dir := root;
      var level := 1;
      while level < 4
        invariant 1 <= level <= 4 && Rooted() && Extended(t, Snapshot()) == true
        invariant PathTo(t, Snapshot(), level, p) == true
        invariant level == 1 ==> dir == root
        invariant level > 1 ==> Node(level, p / Size(level - 1)) in dirs
                                && dirs[Node(level, p / Size(level - 1))] == dir
        invariant dirFlags == NONE ==> Snapshot() == t
      {
        ghost var n := if level == 1 then Node(1, 0) else Node(level, p / Size(level - 1));
        assert NodeOk(Snapshot(), n) == true;
        assert Child(n, p / Size(level) % 512) == Node(level + 1, p / Size(level));
        ghost var t1 := Snapshot();
        ok, dir := AccessToChildDir(dir, p / Size(level) % 512, dirFlags, n);
        PathNext(t, t1, Snapshot(), level, p, ok);
        ExtendedTwice(t, t1, Snapshot());
        if !ok { return; }
        level := level + 1;
      }
      PathWhole(t, Snapshot(), p);
      assert NodeOk(Snapshot(), Node(4, p / 512)) == true;
      ok := true;
    }

    /** `processPage`: the walk to the one page of `virtualBase`. */
    method ProcessPage(virtualBase: nat, dirFlags: Flags, cb: Callback) returns (ok: bool, need: bool)
      requires Rooted() && FirstPage(virtualBase) / Size(1) in slots
      requires Permitted(Snapshot(), FirstPage(virtualBase), FirstPage(virtualBase), cb)
      modifies this`mem, this`free, this`dirs, this`owner, this`calls
      ensures var t, t', p := old(Snapshot()), Snapshot(), FirstPage(virtualBase);
              && (ok ==> Rooted() && Progress(t, t', p, p, cb, After(cb, 1), old(calls), calls, false, need) == true)
              && (dirFlags == NONE ==> dirs == old(dirs) && (ok <==> Node(4, p / 512) in old(dirs)))
              && Cost(t, t', 1, p, p, cb, dirFlags != NONE, ok) == true
              && (dirFlags != NONE && !cb.FreeRam? ==> (ok <==> Missing(t, p, p) <= |t.free|))
    {
      ghost var t, p := Snapshot(), FirstPage(virtualBase);
      ok, need := ProcessPageAt(FirstPage(virtualBase), dirFlags, cb);
      if dirFlags != NONE && !cb.FreeRam? { WalkExact(t, Snapshot(), p, p, ok); }
    }

    method ProcessPageAt(p: nat, dirFlags: Flags, cb: Callback) returns (ok: bool, need: bool)
      requires Rooted() && p < 0x10_0000_0000 && p / Size(1) in slots && Permitted(Snapshot(), p, p, cb)
      modifies this`mem, this`free, this`dirs, this`owner, this`calls
      ensures ok ==> Rooted() && Progress(old(Snapshot()), Snapshot(), p, p, cb, After(cb, 1), old(calls), calls,
                                          false, need) == true
      ensures dirFlags == NONE ==> dirs == old(dirs) && (ok <==> Node(4, p / 512) in old(dirs))
      ensures Cost(old(Snapshot()), Snapshot(), 1, p, p, cb, dirFlags != NONE, ok) == true
    {
      var dir, cb';
      ghost var t, q: int := Snapshot(), p;
      ok, dir := WalkToLeaf(p, dirFlags);
      if !ok { return false, false; }
      ghost var t1 := Snapshot();
      ProgressNone(t, t1, p, cb, calls, false);
      StillPermitted(t, t1, q, q - 1, q, cb, cb, calls, calls, false, false);
      cb', need := ProcessLeaf(dir, p % 512, cb, false, p);
      ProgressJoin(t, t1, Snapshot(), q, q - 1, q, cb, cb, cb', old(calls), old(calls), calls, false, false, need);
    }

    /** A walk that maps or sets flags, and may create directories. */
    method Change(virtualBase: nat, size: nat, dirFlags: Flags, cb: Callback) returns (ok: bool)
      requires Rooted() && InSlots(slots, virtualBase, size) && !cb.FreeRam? && dirFlags != NONE
      modifies this`mem, this`free, this`dirs, this`owner, this`calls
      ensures var t, t', a, b := old(Snapshot()), Snapshot(), FirstPage(virtualBase), LastPage(virtualBase, size);
              && (ok ==> Rooted() == true && Changed(t, t', a, b, cb) == true)
              && Cost(t, t', 1, a, b, cb, true, ok) == true && (ok <==> Missing(t, a, b) <= |t.free|)
    {
      ghost var t, a, b := Snapshot(), FirstPage(virtualBase), LastPage(virtualBase, size);
      var need;
      ok, need := ProcessPages(virtualBase, size, dirFlags, cb);
      if ok { IsChanged(t, Snapshot(), a, b, cb, After(cb, b + 1 - a), old(calls), calls, false, need); }
    }

    /** Maps page i of the range to frame physBase + i * 4096. The ownership of frames is kept if and only if no page of
        the range maps other RAM than before. */
    method MapPages(virtualBase: nat, physBase: int, size: nat, pageFlags: Flags) returns (ok: bool)
      requires Rooted() && InSlots(slots, virtualBase, size)
      modifies this`mem, this`free, this`dirs, this`owner, this`calls
      ensures ok ==> Rooted() && Grows(old(Snapshot()), Snapshot())
                     && HeldFrames(Snapshot()) == HeldFrames(old(Snapshot()))
      ensures ok ==> forall p :: View(Snapshot(), p) == if FirstPage(virtualBase) <= p <= LastPage(virtualBase, size)
                                                          then Entry(physBase + 4096 * (p - FirstPage(virtualBase)),
                                                                     pageFlags)
                                                        else View(old(Snapshot()), p)
      ensures ok && old(Good()) ==>
                (Good() <==> forall p {:trigger View(old(Snapshot()), p)} ::
                   FirstPage(virtualBase) <= p <= LastPage(virtualBase, size) ==>
                     SameRam(old(owner).Keys, View(old(Snapshot()), p),
                             Entry(physBase + 4096 * (p - FirstPage(virtualBase)), pageFlags)))
      ensures ok <==> Missing(old(Snapshot()), FirstPage(virtualBase), LastPage(virtualBase, size)) <= |old(free)|
    {
      ok := Change(virtualBase, size, DirFlags(pageFlags), Map(physBase, pageFlags));
    }

    /** `setPagesFlags`. The ownership of frames is kept if and only if every page of the range goes on to map the RAM
        it did. */
    method SetPagesFlags(virtualBase: nat, size: nat, mask: Mask, pageFlags: Flags) returns (ok: bool)
      requires Rooted() && InSlots(slots, virtualBase, size)
      modifies this`mem, this`free, this`dirs, this`owner, this`calls
      ensures ok ==> Rooted() && Grows(old(Snapshot()), Snapshot())
                     && HeldFrames(Snapshot()) == HeldFrames(old(Snapshot()))
      ensures ok ==> forall p :: View(Snapshot(), p) == if FirstPage(virtualBase) <= p <= LastPage(virtualBase, size)
                                                          then Apply(SetFlags(mask, pageFlags),
                                                                     View(old(Snapshot()), p))
                                                        else View(old(Snapshot()), p)
      ensures ok && old(Good()) ==>
                (Good() <==> forall p {:trigger View(old(Snapshot()), p)} ::
                   FirstPage(virtualBase) <= p <= LastPage(virtualBase, size) ==>
                     SameRam(old(owner).Keys, View(old(Snapshot()), p),
                             Apply(SetFlags(mask, pageFlags), View(old(Snapshot()), p))))
      ensures ok <==> Missing(old(Snapshot()), FirstPage(virtualBase), LastPage(virtualBase, size)) <= |old(free)|
    {
      ok := Change(virtualBase, size, DirFlags(pageFlags), SetFlags(mask, pageFlags));
    }

    /** All flags are replaced by others without PAGE_FLAG_PRESENT, as `alloc` does it: ownership is kept if and only if
        no page of the range had RAM. */
    method ReplaceFlags(virtualBase: nat, size: nat, pageFlags: Flags, ghost a: int, ghost b: int) returns (ok: bool)
      requires Rooted() && InSlots(slots, virtualBase, size) && !pageFlags.present
      requires a == FirstPage(virtualBase) && b == LastPage(virtualBase, size)
      modifies this`mem, this`free, this`dirs, this`owner, this`calls
      ensures var t, t' := old(Snapshot()), Snapshot();
              && (ok ==> Rooted() == true && FlagsReplaced(t, t', a, b, pageFlags) == true)
              && Walked(t, t', 1, a, b, ok) == true && Frames(t') == Frames(t) && (!ok ==> free == [])
              && (ok <==> Missing(t, a, b) <= |t.free|)
    {
      ghost var t := Snapshot();
      ok := Change(virtualBase, size, DirFlags(pageFlags), SetFlags(PAGE_MASK, pageFlags));
      if ok { ReplacesFlags(t, Snapshot(), a, b, pageFlags); }
    }

    /** Gives the frames of a range of RAM back: afterwards exactly these are on the stack besides those that were. */
    method FreeRamPages(virtualBase: nat, size: nat, virtualAllocated: bool) returns (ok: bool)
      requires Good() && InSlots(slots, virtualBase, size)
      requires OnlyRam(Snapshot(), FirstPage(virtualBase), LastPage(virtualBase, size))
      modifies this`mem, this`free, this`dirs, this`owner, this`calls
      ensures dirs == old(dirs)
      ensures ok <==> AllDirs(old(Snapshot()), FirstPage(virtualBase), LastPage(virtualBase, size))
      ensures ok ==> Good()
      ensures ok ==> RamFreed(old(Snapshot()), Snapshot(), FirstPage(virtualBase), LastPage(virtualBase, size),
                              virtualAllocated)
    {
      var need;
      ghost var t, a, b, cb := Snapshot(), FirstPage(virtualBase), LastPage(virtualBase, size),
        FreeRam(virtualAllocated);
      assert Fit(t, a, b, cb) == true;
      ok, need := ProcessPages(virtualBase, size, NONE, FreeRam(virtualAllocated));
      if ok { FreesRam(t, Snapshot(), a, b, virtualAllocated); }
    }

    /** The same for one page. */
    method FreeRamPage(virtualBase: nat, virtualAllocated: bool) returns (ok: bool)
      requires Good() && FirstPage(virtualBase) / Size(1) in slots
      requires OnlyRam(Snapshot(), FirstPage(virtualBase), FirstPage(virtualBase))
      modifies this`mem, this`free, this`dirs, this`owner, this`calls
      ensures dirs == old(dirs)
      ensures ok <==> Node(4, FirstPage(virtualBase) / 512) in old(dirs)
      ensures ok ==> Good() && RamFreed(old(Snapshot()), Snapshot(), FirstPage(virtualBase), FirstPage(virtualBase),
                                        virtualAllocated)
    {
      var need;
      ghost var t, p, cb := Snapshot(), FirstPage(virtualBase), FreeRam(virtualAllocated);
      assert Fit(t, p, p, cb) == true;
      ok, need := ProcessPage(virtualBase, NONE, FreeRam(virtualAllocated));
      if ok { FreesRam(t, Snapshot(), p, p, virtualAllocated); }
    }

    /** `freePage`: the frame becomes the top of the stack. */
    method FreePage(frame: int)
      modifies this`free, this`owner
      ensures Snapshot() == Pushed(old(Snapshot()), frame)
    {
      free, owner := free + [frame], owner[frame := Free(|free|)];
    }

    /** `allocPage`: the frame is held by the caller until it is mapped; the kernel panics if there is none. */
    method AllocPage() returns (ok: bool, frame: int)
      requires Rooted()
      modifies this`free, this`owner
      ensures ok <==> old(free) != []
      ensures Rooted() && Grows(old(Snapshot()), Snapshot()) && SameView(old(Snapshot()), Snapshot())
      ensures old(Good()) ==> Good()
      ensures ok ==> frame == old(free)[|old(free)| - 1] && frame in owner && frame != 0 && owner[frame] == Held
      ensures ok ==> Snapshot() == Popped(old(Snapshot()))
                     && HeldFrames(Snapshot()) == HeldFrames(old(Snapshot())) + {frame}
      ensures ok ==> old(owner[frame]).Free? && frame !in HeldFrames(old(Snapshot()))
      ensures !ok ==> Snapshot() == old(Snapshot())
    {
      if free == [] {
        return false, 0;
      }
      PopWalkable(Snapshot());
      if Valid(Snapshot()) { PopHeld(Snapshot()); }
      frame := free[|free| - 1];
      free := free[..|free| - 1];
      owner := owner[frame := Held];
      ok := true;
    }

    /** Maps one held frame of RAM. Ownership is kept if and only if the page had no RAM. */
    method MapPage(virtualBase: nat, frame: int, pageFlags: Flags) returns (ok: bool)
      requires Rooted() && FirstPage(virtualBase) / Size(1) in slots && pageFlags.present
      requires frame in owner && owner[frame] == Held
      modifies this`mem, this`free, this`dirs, this`owner
      ensures var t, t', p := old(Snapshot()), Snapshot(), FirstPage(virtualBase);
              && (ok ==> Rooted() && Mapped(t, t', p, Entry(frame, pageFlags)) == true)
              && Walked(t, t', 1, p, p, ok) == true && Frames(t') == Frames(t) && (!ok ==> free == [])
              && (ok <==> Missing(t, p, p) <= |t.free|)
    {
      var dir;
      ghost var t := Snapshot();
      var p := FirstPage(virtualBase);
      ok, dir := WalkToLeaf(p, DirFlags(pageFlags));
      WalkExact(t, Snapshot(), p, p, ok);
      if !ok { return; }
      InstallMaps(t, Snapshot(), p, Entry(frame, pageFlags));
      Install(dir, p, Entry(frame, pageFlags));
    }

    /** Writes a leaf entry that maps a held frame. */
    method Install(dir: int, p: nat, e: Entry)
      requires HasLeaf(Snapshot(), p) && dirs[Node(4, p / 512)] == dir
      modifies this`mem, this`owner
      ensures Snapshot() == Installed(old(Snapshot()), p, e)
    {
      mem := mem[dir := mem[dir][p % 512 := e]];
      owner := owner[e.addr := Leaf(p)];
    }

    /** The walk of `onPageFault`, which creates nothing. */
    method FindLeaf(p: nat) returns (found: bool, dir: int)
      requires Good() && p < 0x10_0000_0000 && p / Size(1) in slots
      ensures found <==> Node(4, p / 512) in dirs
      ensures found ==> HasLeaf(Snapshot(), p) && dirs[Node(4, p / 512)] == dir
    {
      ghost var t := Snapshot();
      Nested(p);
      if Node(4, p / 512) in dirs { DirsAbove(t, p); }
      dir := root;
      var level := 1;
      while level < 4
        invariant 1 <= level <= 4
        invariant level == 1 ==> dir == root
        invariant level > 1 ==> Node(level, p / Size(level - 1)) in dirs
                                && dirs[Node(level, p / Size(level - 1))] == dir
      {
        ghost var n := if level == 1 then Node(1, 0) else Node(level, p / Size(level - 1));
        var i := p / Size(level) % 512;
        assert Child(n, i) == Node(level + 1, p / Size(level));
        assert NodeOk(t, n) == true && EntryOk(t, n, i) == true;
        if Child(n, i) in dirs { assert NodeOk(t, Child(n, i)) == true; }
        if mem[dir][i].addr == 0 {
          return false, 0;
        }
        dir := mem[dir][i].addr;
        level := level + 1;
      }
      assert NodeOk(t, Node(4, p / 512)) == true;
      found := true;
    }

    /** A fault on a page that is to be allocated on demand gives it a frame; faults on all other pages change
        nothing. */
    method OnPageFault(addr: nat, protection: bool) returns (ok: bool, handled: bool)
      requires Good() && FirstPage(addr) / Size(1) in slots
      modifies this`mem, this`free, this`owner
      ensures ok <==> !(!protection && Faults(View(old(Snapshot()), FirstPage(addr))) && old(free) == [])
      ensures ok ==> (handled <==> !protection
                                   && (View(old(Snapshot()), FirstPage(addr)).flags.present
                                       || View(old(Snapshot()), FirstPage(addr)).flags.alloc))
      ensures ok ==> Good() && Grows(old(Snapshot()), Snapshot())
                     && HeldFrames(Snapshot()) == HeldFrames(old(Snapshot()))
      ensures !ok || !(!protection && Faults(View(old(Snapshot()), FirstPage(addr)))) ==> Snapshot() == old(Snapshot())
      ensures ok && !protection && Faults(View(old(Snapshot()), FirstPage(addr))) ==>
                && free == old(free)[..|old(free)| - 1]
                && forall p :: View(Snapshot(), p) == if p == FirstPage(addr)
                   then Faulted(View(old(Snapshot()), p), old(free)[|old(free)| - 1])
                                                      else View(old(Snapshot()), p)
    {
      if protection {
        return true, false;
      }
      var p := FirstPage(addr);
      var found, dir := FindLeaf(p);
      if !found {
        return true, false;
      }
      var entry := mem[dir][p % 512];
      if entry.flags.present {
        return true, true;
      } else if !entry.flags.alloc {
        return true, false;
      }
      var frame;
      ok, frame := AllocPage();
      if !ok {
        return false, false;
      }
      ghost var t1 := Snapshot();
      InstallWalkable(t1, p, Faulted(entry, frame));
      InstallHeld(t1, p, Faulted(entry, frame));
      Install(dir, p, Faulted(entry, frame));
      handled := true;
    }
  }
}
