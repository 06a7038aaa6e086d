/** `alloc`, `free` and `freeRamPages` of kernel/VirtualMemoryManager.cpp, and page faults: the page allocator and the
    page tables together. Over every run of allocations, commits, page faults and frees every frame of RAM keeps exactly
    one owner, unless pages are allocated over a page that got a frame after it was freed. */
module AddressSpace {
  import opened PageRuns
  import opened PageTables
  import opened KernelPaging
  import VirtualMemory

  const RAM_VIRTUAL_BASE := 0xFFFF_8000_0000_0000
  const KERNEL_VIRTUAL_BASE := 0xFFFF_FF80_0000_0000

  // ---------------------------------------------------------------------------------
  // Runs of virtual pages and their leaf entries
  // ---------------------------------------------------------------------------------

  /** The page has a leaf directory, and its entry maps RAM if it maps anything. */
  ghost predicate Backed(t: Tables, p: int)
  {
    Node(4, p / 512) in t.dirs && (View(t, p).flags.present && View(t, p).addr != 0 ==> View(t, p).addr in t.owner)
  }

  ghost predicate AllBacked(t: Tables, lo: int, hi: int)
  {
    forall p {:trigger Backed(t, p)} :: lo <= p < hi ==> Backed(t, p)
  }

  ghost predicate NoRam(t: Tables, lo: int, hi: int)
  {
    forall p {:trigger View(t, p)} :: lo <= p < hi ==> !Owns(t.owner.Keys, View(t, p))
  }

  ghost predicate AllFlags(t: Tables, lo: int, hi: int, flags: Flags)
  {
    forall p {:trigger View(t, p)} :: lo <= p < hi ==> View(t, p).flags == flags
  }

  /** Pages lo to hi - 1 map frames of RAM that were on the stack. */
  ghost predicate NewFrames(t: Tables, t': Tables, lo: int, hi: int)
  {
    forall p {:trigger View(t', p)} :: lo <= p < hi ==>
      Owns(t'.owner.Keys, View(t', p)) && View(t', p).addr in t.owner && t.owner[View(t', p).addr].Free?
  }

  /** Page x of run b has what a page of a busy run with VMM_REG_ALLOC_FLAG needs. */
  ghost predicate ServedAt(rs: Runs, t: Tables, at: int, b: int, x: int)
  {
    InRun(rs, b, x) && !rs[b].free && rs[b].alloc ==> Backed(t, at + x)
  }

  /** The page tables serve the runs, whose first page is page `at` of the address space. */
  ghost predicate Served(rs: Runs, t: Tables, at: int)
  {
    forall b, x {:trigger ServedAt(rs, t, at, b, x)} :: ServedAt(rs, t, at, b, x)
  }

  /** Pages of other runs have no RAM. */
  ghost predicate CleanAt(rs: Runs, t: Tables, at: int, b: int, x: int)
  {
    InRun(rs, b, x) && (rs[b].free || !rs[b].alloc) ==> !Owns(t.owner.Keys, View(t, at + x))
  }

  ghost predicate Clean(rs: Runs, t: Tables, at: int)
  {
    forall b, x {:trigger CleanAt(rs, t, at, b, x)} :: CleanAt(rs, t, at, b, x)
  }

  /** Directories may have been added, and leaf entries of pages lo to hi - 1 may have changed. */
  ghost predicate ChangedOnly(t: Tables, t': Tables, lo: int, hi: int)
  {
    Grows(t, t') && forall p {:trigger View(t', p)} :: !(lo <= p < hi) ==> View(t', p) == View(t, p)
  }

  /** Pages taken from a free run have no RAM in clean tables. */
  lemma TakeKeeps(rs: Runs, t: Tables, at: int, P: int, b: int, n: int, item: int)
    requires Partition(rs, P) && b in rs && rs[b].free && 1 <= n <= rs[b].n
    ensures Served(rs, t, at) ==> Served(Take(rs, b, n, item), t, at) == true
    ensures Clean(rs, t, at) ==> Clean(Take(rs, b, n, item), t, at) == true && NoRam(t, at + b, at + b + n) == true
  {
    var r := Take(rs, b, n, item);
    TakePartition(rs, P, b, n, item);
    if Served(rs, t, at) {
      forall c, x ensures ServedAt(r, t, at, c, x) == true { assert ServedAt(rs, t, at, c, x) == true; }
    }
    if Clean(rs, t, at) {
      forall c, x ensures CleanAt(r, t, at, c, x) == true {
        assert CleanAt(rs, t, at, c, x) == true && CleanAt(rs, t, at, b, x) == true;
      }
      forall p | at + b <= p < at + b + n ensures !Owns(t.owner.Keys, View(t, p)) {
        assert CleanAt(rs, t, at, b, p - at) == true;
      }
    }
  }

  lemma ApartFrom(rs: Runs, P: int, b: int, c: int, x: int)
    requires Partition(rs, P) && b in rs && c != b && InRun(rs, c, x)
    ensures !(b <= x < b + rs[b].n)
  {
    assert Apart(rs, b, c) == true && Apart(rs, c, b) == true && RunOk(rs, P, b) == true;
  }

  /** Once all its pages are backed, a run may be flagged. */
  lemma FlagKeeps(rs: Runs, t: Tables, t': Tables, at: int, P: int, b: int)
    requires Partition(rs, P) && b in rs && !rs[b].free && ChangedOnly(t, t', at + b, at + b + rs[b].n)
    requires AllBacked(t', at + b, at + b + rs[b].n)
    ensures Served(rs, t, at) ==> Served(Flagged(rs, b), t', at) == true
    ensures Clean(rs, t, at) ==> Clean(Flagged(rs, b), t', at) == true
  {
    var r := Flagged(rs, b);
    if Served(rs, t, at) {
      forall c, x ensures ServedAt(r, t', at, c, x) == true {
        assert ServedAt(rs, t, at, c, x) == true;
        if InRun(r, c, x) && c != b { ApartFrom(rs, P, b, c, x); }
        else if c == b && InRun(r, c, x) { assert Backed(t', at + x) == true; }
      }
    }
    if Clean(rs, t, at) {
      forall c, x ensures CleanAt(r, t', at, c, x) == true {
        assert CleanAt(rs, t, at, c, x) == true;
        if InRun(r, c, x) && c != b { ApartFrom(rs, P, b, c, x); }
      }
    }
  }

  /** A run that is freed is joined with free pages only. */
  lemma GiveRuns(rs: Runs, P: int, b: int, item: int, c: int, x: int) returns (d: int)
    requires Partition(rs, P) && b in rs && !rs[b].free && Lo(rs, b) in rs && InRun(Give(rs, b, item), c, x)
    ensures InRun(rs, d, x) && (d == b <==> b <= x < b + rs[b].n)
    ensures d != b && Give(rs, b, item)[c].free ==> rs[d].free
    ensures !Give(rs, b, item)[c].free ==> d != b && rs[d].free == false && rs[d].alloc == Give(rs, b, item)[c].alloc
  {
    LoFacts(rs, P, b);
    HiFacts(rs, P, b);
    var e := b + rs[b].n;
    if c == Lo(rs, b) {
      d := if x < b then c else if e <= x then e else b;
    } else {
      d := c;
      Outside(rs, P, b, c);
      assert Apart(rs, b, c) == true;
    }
  }

  /** Freed pages have no RAM. */
  lemma GiveKeeps(rs: Runs, t: Tables, t': Tables, at: int, P: int, b: int, item: int)
    requires Partition(rs, P) && b in rs && !rs[b].free && Lo(rs, b) in rs
    requires ChangedOnly(t, t', at + b, at + b + rs[b].n)
    ensures Served(rs, t, at) ==> Served(Give(rs, b, item), t', at) == true
    ensures Clean(rs, t, at) && NoRam(t', at + b, at + b + rs[b].n) ==> Clean(Give(rs, b, item), t', at) == true
  {
    var r := Give(rs, b, item);
    if Served(rs, t, at) {
      forall c, x ensures ServedAt(r, t', at, c, x) == true {
        if InRun(r, c, x) {
          var d := GiveRuns(rs, P, b, item, c, x);
          assert ServedAt(rs, t, at, d, x) == true;
        }
      }
    }
    if Clean(rs, t, at) && NoRam(t', at + b, at + b + rs[b].n) {
      forall c, x ensures CleanAt(r, t', at, c, x) == true {
        if InRun(r, c, x) {
          var d := GiveRuns(rs, P, b, item, c, x);
          assert CleanAt(rs, t, at, d, x) == true;
          var v := View(t', at + x);
        }
      }
    }
  }

  /** Entries lose their RAM, and nothing else happens to them. */
  lemma FreedKeeps(rs: Runs, t: Tables, t': Tables, at: int, a: int, b: int, again: bool)
    requires RamFreed(t, t', a, b, again) && t'.dirs == t.dirs
    ensures Served(rs, t, at) ==> Served(rs, t', at) == true
    ensures Clean(rs, t, at) ==> Clean(rs, t', at) == true
  {
    forall p ensures Backed(t, p) ==> Backed(t', p) { var v := View(t', p); }
    forall p ensures !Owns(t.owner.Keys, View(t, p)) ==> !Owns(t'.owner.Keys, View(t', p)) { var v := View(t', p); }
    if Served(rs, t, at) {
      forall c, x ensures ServedAt(rs, t', at, c, x) == true { assert ServedAt(rs, t, at, c, x) == true; }
    }
    if Clean(rs, t, at) {
      forall c, x ensures CleanAt(rs, t', at, c, x) == true { assert CleanAt(rs, t, at, c, x) == true; }
    }
  }

  /** Page x belongs to a busy run with VMM_REG_ALLOC_FLAG. */
  ghost predicate Live(rs: Runs, x: int)
  {
    exists b :: InRun(rs, b, x) && !rs[b].free && rs[b].alloc
  }

  /** Page p got a frame after a fault. */
  ghost predicate FrameGiven(t: Tables, t': Tables, p: int, frame: int)
  {
    && Grows(t, t') && frame in t.owner && Faults(View(t, p))
    && forall q {:trigger View(t', q)} :: View(t', q) == if q == p then Faulted(View(t, q), frame) else View(t, q)
  }

  lemma FaultServed(rs: Runs, t: Tables, t': Tables, at: int, p: int, frame: int)
    requires FrameGiven(t, t', p, frame) && Served(rs, t, at)
    ensures Served(rs, t', at) == true
  {
    forall c, x ensures ServedAt(rs, t', at, c, x) == true {
      assert ServedAt(rs, t, at, c, x) == true;
      var v := View(t', at + x);
    }
  }

  /** The tables stay clean exactly if the page is outside the runs or belongs to one with VMM_REG_ALLOC_FLAG. */
  lemma FaultClean(rs: Runs, t: Tables, t': Tables, at: int, P: int, p: int, frame: int)
    requires Partition(rs, P) && FrameGiven(t, t', p, frame)
    ensures Clean(rs, t', at) <==> Clean(rs, t, at) && (!(0 <= p - at < P) || Live(rs, p - at))
  {
    if Clean(rs, t, at) && (!(0 <= p - at < P) || Live(rs, p - at)) {
      forall c, x ensures CleanAt(rs, t', at, c, x) == true { CleanFault(rs, t, t', at, P, p, frame, c, x); }
    } else if !Clean(rs, t, at) {
      var c, x :| !CleanAt(rs, t, at, c, x);
      var v := View(t', at + x);
      assert !CleanAt(rs, t', at, c, x);
    } else {
      var c := CoverFrom(rs, P, 0, p - at);
      var v := View(t', p);
      assert !CleanAt(rs, t', at, c, p - at);
    }
  }

  lemma CleanFault(rs: Runs, t: Tables, t': Tables, at: int, P: int, p: int, frame: int, c: int, x: int)
    requires Partition(rs, P) && FrameGiven(t, t', p, frame) && CleanAt(rs, t, at, c, x)
    requires !(0 <= p - at < P) || Live(rs, p - at)
    ensures CleanAt(rs, t', at, c, x) == true
  {
    var v := View(t', at + x);
    if InRun(rs, c, x) && at + x == p {
      assert RunOk(rs, P, c) == true;
      var d :| InRun(rs, d, x) && !rs[d].free && rs[d].alloc;
      OneRun(rs, P, c, d, x);
    }
  }

  // ---------------------------------------------------------------------------------
  // Addresses
  // ---------------------------------------------------------------------------------

  /** (size + PAGE_MASK) / PAGE_SIZE on 64-bit words. */
  function NumPages(size: nat): nat { (size + 4095) % 0x1_0000_0000_0000_0000 / 4096 }

  /** The pages of `size` bytes at page b of the allocator's range. */
  lemma PagesOf(virtualBase: nat, P: int, b: int, size: nat)
    requires virtualBase % 4096 == 0 && virtualBase % 0x1_0000_0000_0000 + 4096 * P <= 0x1_0000_0000_0000
    requires size <= VirtualMemory.INVALID && 0 <= b && 1 <= NumPages(size) && b + NumPages(size) <= P
    ensures FirstPage(virtualBase + 4096 * b) == FirstPage(virtualBase) + b
    ensures LastPage(virtualBase + 4096 * b, size) == FirstPage(virtualBase) + b + NumPages(size) - 1
    ensures size + (virtualBase + 4096 * b) % 0x1_0000_0000_0000 <= 0x1_0000_0000_0000
  {
    var low := virtualBase % 0x1_0000_0000_0000;
    assert (virtualBase + 4096 * b) % 0x1_0000_0000_0000 == low + 4096 * b;
    assert low % 4096 == 0;
  }

  lemma PageOf(virtualBase: nat, P: int, b: int)
    requires virtualBase % 4096 == 0 && virtualBase % 0x1_0000_0000_0000 + 4096 * P <= 0x1_0000_0000_0000 && 0 <= b < P
    ensures FirstPage(virtualBase + 4096 * b) == FirstPage(virtualBase) + b
  {
    var low := virtualBase % 0x1_0000_0000_0000;
    assert (virtualBase + 4096 * b) % 0x1_0000_0000_0000 == low + 4096 * b;
  }

  /** `isRamMappingPtr`: the address belongs to the window onto RAM. */
  predicate InWindow(base: nat) { RAM_VIRTUAL_BASE <= base < KERNEL_VIRTUAL_BASE }

  /** The last page `freeRamPages` releases. */
  function LastFreed(base: nat, size: nat): int { if size <= 4096 then FirstPage(base) else LastPage(base, size) }

  /** The VMM_ flags of a request. */
  datatype Request = Request(commit: bool, readWrite: bool, readOnly: bool, noCache: bool)

  /** The request is not for addresses alone. */
  predicate Backs(r: Request) { r.commit || r.readWrite || r.readOnly }

  function PageFlags(r: Request): Flags
  {
    var rest := 0x100 | (if r.noCache then 0x10 else 0) | (if r.readWrite then 2 else 0);
    Flags(r.commit, !r.commit, rest)
  }

  /** The range of the allocator lies in root slots with 4 KB mappings, without wrapping around. */
  ghost predicate Placed(virtualBase: nat, P: int, slots: set<int>)
  {
    && 0 < virtualBase && virtualBase % 4096 == 0 && virtualBase % 0x1_0000_0000_0000 + 4096 * P <= 0x1_0000_0000_0000
    && forall i :: FirstPage(virtualBase) / Size(1) <= i <= (FirstPage(virtualBase) + P - 1) / Size(1) ==> i in slots
  }

  lemma PlacedPages(virtualBase: nat, P: int, slots: set<int>, b: int, size: nat)
    requires Placed(virtualBase, P, slots) && size <= VirtualMemory.INVALID && 0 <= b && 1 <= NumPages(size)
    requires b + NumPages(size) <= P
    ensures InSlots(slots, virtualBase + 4096 * b, size) == true
  {
    PagesOf(virtualBase, P, b, size);
  }

  lemma PlacedPage(virtualBase: nat, P: int, slots: set<int>, b: int)
    requires Placed(virtualBase, P, slots) && 0 <= b < P
    ensures FirstPage(virtualBase + 4096 * b) == FirstPage(virtualBase) + b
    ensures (FirstPage(virtualBase) + b) / Size(1) in slots
  {
    PageOf(virtualBase, P, b);
  }

  // ---------------------------------------------------------------------------------
  // Backing a run
  // ---------------------------------------------------------------------------------

  /** Frames changed their owner only if they were on the stack. */
  ghost predicate FromStack(t: Tables, t': Tables)
  {
    forall f {:trigger t'.owner[f]} :: f in t.owner ==>
      f in t'.owner && (t'.owner[f] == t.owner[f] || t.owner[f].Free?)
  }

  /** Pages lo to hi - 1 were backed with the given flags, by RAM from the stack if so asked for; nothing else was
      done. */
  ghost predicate RunBacked(t: Tables, t': Tables, lo: int, hi: int, flags: Flags, ram: bool)
  {
    && Walkable(t') && ChangedOnly(t, t', lo, hi) && HeldFrames(t') == HeldFrames(t) && FromStack(t, t')
    && AllBacked(t', lo, hi) && AllFlags(t', lo, hi, flags) && (ram ==> NewFrames(t, t', lo, hi))
    && (Valid(t) && NoRam(t, lo, hi) ==> Valid(t'))
  }

  /** The directories of pages lo to hi - 1 were added, and so many frames were taken besides. */
  ghost predicate Paid(t: Tables, t': Tables, lo: int, hi: int, frames: int)
  {
    Walked(t, t', 1, lo, hi - 1, true) && Frames(t') + frames == Frames(t)
  }

  lemma BackedNone(t: Tables, lo: int, flags: Flags)
    requires Walkable(t)
    ensures RunBacked(t, t, lo, lo, flags, true) == true && Paid(t, t, lo, lo, 0) == true
  {
    WalkedNone(t, 1, lo);
  }

  /** After page p, the pages from lo on up to p + 1 are backed. */
  lemma BackedNext(t: Tables, t1: Tables, t2: Tables, lo: int, p: int, flags: Flags)
    requires RunBacked(t, t1, lo, p, flags, true) == true && lo <= p && Paid(t, t1, lo, p, p - lo) == true
    requires RunBacked(t1, t2, p, p + 1, flags, true) == true && Paid(t1, t2, p, p + 1, 1) == true
    ensures RunBacked(t, t2, lo, p + 1, flags, true) == true && Paid(t, t2, lo, p + 1, p + 1 - lo) == true
  {
    WalkedJoin(t, t1, t2, 1, lo, p - 1, p, true);
    forall q | lo <= q < p + 1
      ensures Backed(t2, q) == true && View(t2, q).flags == flags && Owns(t2.owner.Keys, View(t2, q))
      ensures View(t2, q).addr in t.owner && t.owner[View(t2, q).addr].Free?
    {
      var v, v1 := View(t2, q), View(t1, q);
      if q < p { assert Backed(t1, q) == true; }
      else { assert Backed(t2, q) == true; var o := t1.owner[v.addr]; }
    }
    forall q | !(lo <= q < p + 1) ensures View(t2, q) == View(t, q) { var v := View(t1, q); }
    forall f | f in t.owner ensures f in t2.owner && (t2.owner[f] == t.owner[f] || t.owner[f].Free?) {
      var o := t1.owner[f];
    }
    if Valid(t) && NoRam(t, lo, p + 1) {
      forall q | p <= q < p + 1 ensures !Owns(t1.owner.Keys, View(t1, q)) { var v := View(t, q); }
    }
  }

  /** The frames a request for pages lo to hi - 1 takes: one per page if it is to be committed, and those of the
      directories that are missing. */
  ghost function FramesFor(t: Tables, lo: int, hi: int, request: Request): int
  {
    if Backs(request) then Missing(t, lo, hi - 1) + if request.commit then hi - lo else 0 else 0
  }

  /** The request succeeds exactly if there are so many frames, and then takes exactly as many. */
  ghost predicate Charged(t: Tables, t': Tables, lo: int, hi: int, request: Request, ok: bool)
  {
    && (ok <==> FramesFor(t, lo, hi, request) <= |t.free|)
    && (ok ==> |t'.free| == |t.free| - FramesFor(t, lo, hi, request))
  }

  lemma FramesBound(t: Tables, lo: nat, hi: int, request: Request)
    requires lo < hi
    ensures 0 <= FramesFor(t, lo, hi, request) <= 4 * (hi - lo)
    ensures !request.commit ==> FramesFor(t, lo, hi, request) <= 3 * (hi - lo)
  {
    MissingBound(t, lo, hi - 1);
  }

  lemma PaidExactly(t: Tables, t': Tables, lo: nat, hi: int, frames: int)
    requires Paid(t, t', lo, hi, frames) == true
    ensures |t.free| == |t'.free| + Missing(t, lo, hi - 1) + frames
  {
    DirsTaken(t, t', lo, hi - 1);
  }

  /** Committing a page failed for want of a frame: for the page, or for a directory. */
  ghost predicate Short(t: Tables, t': Tables, p: int)
  {
    && t'.free == [] && DirsFor(t, t', 1, p, p)
    && (Frames(t') == Frames(t) || (Frames(t') + 1 == Frames(t) && !AllBelow(t', 1, p, p)))
  }

  lemma ShortFails(t: Tables, t1: Tables, t2: Tables, lo: nat, p: int, hi: int)
    requires lo <= p < hi && Paid(t, t1, lo, p, p - lo) == true && Short(t1, t2, p) == true
    ensures |t.free| < Missing(t, lo, hi - 1) + (hi - lo)
  {
    ShortDirs(t, t1, t2, lo, p, hi);
    TooFew(t, t2, lo, hi, Frames(t) - Frames(t2));
  }

  lemma TooFew(t: Tables, t': Tables, lo: nat, hi: int, frames: int)
    requires DirsFor(t, t', 1, lo, hi - 1) == true && t'.free == [] && Frames(t') + frames == Frames(t)
    requires frames < hi - lo || (frames == hi - lo && !AllBelow(t', 1, lo, hi - 1))
    ensures |t.free| < Missing(t, lo, hi - 1) + (hi - lo)
  {
    DirsTaken(t, t', lo, hi - 1);
  }

  lemma ShortDirs(t: Tables, t1: Tables, t2: Tables, lo: int, p: int, hi: int)
    requires lo <= p < hi && Walked(t, t1, 1, lo, p - 1, true) && DirsFor(t1, t2, 1, p, p)
    ensures DirsFor(t, t2, 1, lo, hi - 1) == true
    ensures AllBelow(t2, 1, lo, hi - 1) ==> AllBelow(t2, 1, p, p) == true
  {
    forall n | n in t2.dirs && n !in t.dirs ensures Below(n, 1, lo, hi - 1) == true {
      BelowJoin(n, 1, lo, p - 1, hi - 1);
      BelowJoin(n, 1, p, p, hi - 1);
    }
    if AllBelow(t2, 1, lo, hi - 1) {
      forall n | Below(n, 1, p, p) ensures n in t2.dirs {
        BelowJoin(n, 1, lo, p - 1, hi - 1);
        BelowJoin(n, 1, p, p, hi - 1);
        assert Below(n, 1, lo, hi - 1) == true;
      }
    }
  }

  /** Frame f of RAM is neither free nor a directory nor mapped. */
  ghost predicate Lost(t: Tables, f: int)
  {
    f in t.owner && !IsFree(t, f) && !IsDirectory(t, f) && !IsMapped(t, f)
  }

  /** A frame that was mapped by a page of the run is lost. */
  lemma BackingLoses(t: Tables, t': Tables, lo: int, hi: int, flags: Flags, p: int)
    requires Valid(t) && RunBacked(t, t', lo, hi, flags, flags.present)
    requires lo <= p < hi && Owns(t.owner.Keys, View(t, p))
    ensures Lost(t', View(t, p).addr) && !Valid(t')
  {
    var f := View(t, p).addr;
    assert LeafOk(t, p) == true && t'.owner[f] == Leaf(p);
    forall k | 0 <= k < |t'.free| ensures t'.free[k] != f { assert FreeOk(t', k) == true; }
    forall n | n in t'.dirs ensures t'.dirs[n] != f { assert PageTables.NodeOk(t', n) == true; }
    forall q ensures !MappedBy(t', q, f) {
      var v, w := View(t', q), View(t, q);
      assert LeafOk(t, q) == true;
    }
    assert !MappedBy(t', p, f) && !PageTables.OwnerOk(t', f);
  }

  /** What `alloc` returned is a run of that many pages, backed as requested; no other page is affected. */
  ghost predicate Allocated(rs: Runs, rs': Runs, t: Tables, t': Tables, at: int, b: int, n: int, request: Request)
  {
    && b in rs && rs[b].free && rs[b].n >= n
    && if Backs(request) then
         && rs' == Flagged(Take(rs, b, n, rs[b].item), b)
         && RunBacked(t, t', at + b, at + b + n, PageFlags(request), request.commit)
       else rs' == Take(rs, b, n, rs[b].item) && t' == t
  }

  /** n pages were taken from free run b. */
  ghost predicate Chosen(rs: Runs, rs': Runs, P: int, b: int, n: int)
  {
    && b in rs && rs[b].free && 1 <= n <= rs[b].n && 0 <= b && b + rs[b].n <= P
    && rs' == Take(rs, b, n, rs[b].item)
  }

  lemma IsAllocated(rs: Runs, rs1: Runs, t: Tables, t': Tables, at: int, b: int, n: int, P: int, request: Request)
    requires Chosen(rs, rs1, P, b, n) == true
    requires if Backs(request) then RunBacked(t, t', at + b, at + b + n, PageFlags(request), request.commit) == true
             else t' == t
    ensures b in rs1 && Allocated(rs, if Backs(request) then Flagged(rs1, b) else rs1, t, t', at, b, n, request) == true
    ensures !Backs(request) ==> Charged(t, t', at + b, at + b + n, request, true) == true
  {
  }

  /** The run has no RAM to lose. */
  ghost predicate NothingToLose(t: Tables, at: int, b: int, n: int, request: Request)
  {
    Backs(request) ==> NoRam(t, at + b, at + b + n)
  }

  /** What `alloc` does to runs rs and tables t for a request of n pages. Null is returned exactly if no run fits. The
      kernel panics exactly if there are not enough frames for the run that was chosen. If a page of that run had RAM,
      that RAM is lost. */
  ghost predicate AllocEnds(rs: Runs, rs': Runs, t: Tables, t': Tables, virtualBase: nat, at: int, b: int, n: int,
                            request: Request, ok: bool, pointer: nat)
  {
    && (Fits(rs, n) ==> b in rs && rs[b].free && rs[b].n >= n)
    && (if Fits(rs, n) then Charged(t, t', at + b, at + b + n, request, ok) else ok)
    && (ok ==> (pointer == 0 <==> !Fits(rs, n)))
    && (ok && pointer == 0 ==> rs' == rs && t' == t)
    && (ok && pointer != 0 ==>
          pointer == virtualBase + 4096 * b && Allocated(rs, rs', t, t', at, b, n, request))
    && (ok && pointer != 0 && Backs(request) ==>
          forall p {:trigger View(t, p)} :: at + b <= p < at + b + n && Owns(t.owner.Keys, View(t, p)) ==>
            Lost(t', View(t, p).addr))
  }

  lemma AllocDone(rs: Runs, rs': Runs, t: Tables, t': Tables, virtualBase: nat, at: int, P: int, b: int, n: int,
                  request: Request, ok: bool, pointer: nat)
    requires Partition(rs, P) == true && 1 <= n && Valid(t) == true && b in rs && rs[b].free && rs[b].n >= n
    requires Charged(t, t', at + b, at + b + n, request, ok) == true
    requires ok ==> Allocated(rs, rs', t, t', at, b, n, request) == true
    requires 0 < virtualBase && 0 <= b && pointer == virtualBase + 4096 * b
    ensures AllocEnds(rs, rs', t, t', virtualBase, at, b, n, request, ok, pointer) == true
    ensures ok && Served(rs, t, at) ==> Served(rs', t', at) == true
    ensures ok && Clean(rs, t, at) ==> Clean(rs', t', at) == true && NothingToLose(t, at, b, n, request) == true
    ensures ok ==> (Valid(t') <==> NothingToLose(t, at, b, n, request))
  {
    assert RoomIn(rs, b, n) == true;
    if ok { AllocatedKeeps(rs, rs', t, t', at, P, b, n, request); }
  }

  /** Four frames per page are enough for `alloc`, and three if no page is to be committed. */
  lemma EnoughFrames(rs: Runs, rs': Runs, t: Tables, t': Tables, virtualBase: nat, at: nat, P: int, b: int, n: int,
                     request: Request, ok: bool, pointer: nat)
    requires Partition(rs, P) && AllocEnds(rs, rs', t, t', virtualBase, at, b, n, request, ok, pointer) == true
    ensures |t.free| >= 4 * n ==> ok
    ensures |t.free| >= 3 * n && !request.commit ==> ok
    ensures ok && pointer != 0 && !request.commit ==> |t'.free| >= |t.free| - 3 * n
  {
    if Fits(rs, n) {
      assert RunOk(rs, P, b) == true;
      FramesBound(t, at + b, at + b + n, request);
    }
  }

  /** What an allocation does to the agreement of runs and page tables. */
  lemma AllocatedKeeps(rs: Runs, rs': Runs, t: Tables, t': Tables, at: int, P: int, b: int, n: int, request: Request)
    requires Partition(rs, P) && 1 <= n && Allocated(rs, rs', t, t', at, b, n, request) == true && Valid(t)
    ensures Served(rs, t, at) ==> Served(rs', t', at) == true
    ensures Clean(rs, t, at) ==> Clean(rs', t', at) == true && NothingToLose(t, at, b, n, request) == true
    ensures Valid(t') <==> NothingToLose(t, at, b, n, request)
    ensures Backs(request) ==>
              forall p {:trigger View(t, p)} :: at + b <= p < at + b + n && Owns(t.owner.Keys, View(t, p)) ==>
                Lost(t', View(t, p).addr)
  {
    var r := Take(rs, b, n, rs[b].item);
    TakeKeeps(rs, t, at, P, b, n, rs[b].item);
    TakePartition(rs, P, b, n, rs[b].item);
    if Backs(request) {
      FlagKeeps(r, t, t', at, P, b);
      forall p | at + b <= p < at + b + n && Owns(t.owner.Keys, View(t, p))
        ensures Lost(t', View(t, p).addr) && !Valid(t')
      {
        BackingLoses(t, t', at + b, at + b + n, PageFlags(request), p);
      }
    }
  }

  lemma ServedBacked(rs: Runs, t: Tables, at: int, b: int)
    requires Served(rs, t, at) && b in rs && !rs[b].free && rs[b].alloc
    ensures AllBacked(t, at + b, at + b + rs[b].n) == true
  {
    forall p | at + b <= p < at + b + rs[b].n ensures Backed(t, p) == true {
      assert ServedAt(rs, t, at, b, p - at) == true;
    }
  }

  lemma BackedFacts(t: Tables, lo: int, hi: int)
    requires AllBacked(t, lo, hi)
    ensures AllDirs(t, lo, hi - 1) == true && OnlyRam(t, lo, hi - 1) == true
  {
    forall p | lo <= p < hi ensures Node(4, p / 512) in t.dirs
      ensures View(t, p).flags.present && View(t, p).addr != 0 ==> View(t, p).addr in t.owner
    {
      assert Backed(t, p) == true;
    }
  }

  lemma CleanNoRam(rs: Runs, t: Tables, at: int, b: int)
    requires Clean(rs, t, at) && b in rs && (rs[b].free || !rs[b].alloc)
    ensures NoRam(t, at + b, at + b + rs[b].n) == true
  {
    forall p | at + b <= p < at + b + rs[b].n ensures !Owns(t.owner.Keys, View(t, p)) {
      assert CleanAt(rs, t, at, b, p - at) == true;
    }
  }

  /** A whole number of pages from page q of the address space on. */
  lemma WholeRange(v: nat, q: nat, n: nat)
    requires v % 0x1_0000_0000_0000 == 4096 * q && 1 <= n
    ensures FirstPage(v) == q && LastPage(v, n * 4096) == q + n - 1
  {
    assert n * 4096 + 4096 * q + 4095 == 4096 * (n + q) + 4095;
  }

  lemma WholePages(virtualBase: nat, P: int, slots: set<int>, b: int, n: int)
    requires Placed(virtualBase, P, slots) && 0 <= b && 1 <= n && b + n <= P < VirtualMemory.INVALID
    ensures FirstPage(virtualBase + 4096 * b) == FirstPage(virtualBase) + b
    ensures LastPage(virtualBase + 4096 * b, n * 4096) == FirstPage(virtualBase) + b + n - 1
    ensures InSlots(slots, virtualBase + 4096 * b, n * 4096) == true
  {
    LowPart(virtualBase, P, b);
    WholeRange(virtualBase + 4096 * b, FirstPage(virtualBase) + b, n);
  }

  lemma LowPart(virtualBase: nat, P: int, b: int)
    requires virtualBase % 4096 == 0 && virtualBase % 0x1_0000_0000_0000 + 4096 * P <= 0x1_0000_0000_0000 && 0 <= b < P
    ensures virtualBase % 0x1_0000_0000_0000 == 4096 * FirstPage(virtualBase)
    ensures (virtualBase + 4096 * b) % 0x1_0000_0000_0000 == 4096 * (FirstPage(virtualBase) + b)
  {
    var low := virtualBase % 0x1_0000_0000_0000;
    assert (virtualBase + 4096 * b) % 0x1_0000_0000_0000 == low + 4096 * b;
    assert low % 4096 == 0;
  }

  /** Frames leave the stack only to become directories or to be mapped by a page of the range that changed, and come
      back only from such a page. */
  lemma FramesAccounted(t: Tables, t': Tables, lo: int, hi: int, f: int)
    requires Valid(t) && Valid(t') && ChangedOnly(t, t', lo, hi) && HeldFrames(t) == HeldFrames(t') == {}
    ensures IsFree(t, f) && !IsFree(t', f) ==> (IsDirectory(t', f) && !IsDirectory(t, f)) || Maps(t', lo, hi - 1, f)
    ensures !IsFree(t, f) && IsFree(t', f) ==> Maps(t, lo, hi - 1, f)
  {
    if f in t.owner {
      assert f !in HeldFrames(t) && f !in HeldFrames(t');
      assert PageTables.OwnerOk(t, f) == true && PageTables.OwnerOk(t', f) == true;
      OwnerFacts(t, f);
      OwnerFacts(t', f);
      if t'.owner[f].Leaf? { var v := View(t, t'.owner[f].page); }
      if t.owner[f].Leaf? { var v := View(t', t.owner[f].page); }
    } else {
      forall k | 0 <= k < |t.free| ensures t.free[k] != f { assert FreeOk(t, k) == true; }
      forall k | 0 <= k < |t'.free| ensures t'.free[k] != f { assert FreeOk(t', k) == true; }
    }
  }

  /** `freeRamPages` can walk to these pages, and they map RAM if they map anything. */
  ghost predicate Releasable(t: Tables, base: nat, size: nat)
  {
    && InSlots(t.slots, base, size) && FirstPage(base) / Size(1) in t.slots
    && AllBacked(t, FirstPage(base), LastFreed(base, size) + 1)
  }

  ghost predicate PagesReleased(t: Tables, t': Tables, base: nat, size: nat, again: bool)
  {
    t'.dirs == t.dirs && RamFreed(t, t', FirstPage(base), LastFreed(base, size), again)
  }

  /** The frames of `size` bytes are on the stack, unless they do not start at a page. Every frame has one owner exactly
      if nobody owned or mapped them before. */
  ghost predicate FramesReturned(t: Tables, t': Tables, physAddr: nat, size: nat, ok: bool, owned: bool)
  {
    var n := (size + 4095) / 4096;
    && (ok <==> physAddr % 4096 == 0) && (if ok then PushedRun(t, t', physAddr, n) else t' == t)
    && (owned <==> (ok ==> AllUnowned(t, physAddr, n)))
  }

  /** Frames that nobody owned or mapped make no difference to the runs. */
  lemma PushedServes(rs: Runs, t: Tables, t': Tables, at: int, f: int, n: nat)
    requires PushedRun(t, t', f, n) && AllUnowned(t, f, n) && SameView(t, t')
    ensures Served(rs, t, at) ==> Served(rs, t', at) == true
    ensures Clean(rs, t, at) ==> Clean(rs, t', at) == true
  {
    if Served(rs, t, at) {
      forall c, x ensures ServedAt(rs, t', at, c, x) == true { assert ServedAt(rs, t, at, c, x) == true; }
    }
    if Clean(rs, t, at) {
      forall c, x ensures CleanAt(rs, t', at, c, x) == true {
        assert CleanAt(rs, t, at, c, x) == true;
        var v := View(t, at + x);
        assert MappedBy(t, at + x, v.addr) <==> v.flags.present;
      }
    }
  }

  /** Run b was freed: it is joined with its free neighbours. If it has VMM_REG_ALLOC_FLAG, its frames are on the stack
      and none of its pages has RAM, but the on-demand flag of pages that were never touched stays; else leaf entries
      and frames are as before. */
  ghost predicate FreedRun(rs: Runs, rs': Runs, t: Tables, t': Tables, at: int, b: int)
  {
    && b in rs && Lo(rs, b) in rs && Lo(rs, b) in rs' && rs' == Give(rs, b, rs'[Lo(rs, b)].item)
    && if rs[b].alloc then
         && RamFreed(t, t', at + b, at + b + rs[b].n - 1, false) && t'.dirs == t.dirs
         && NoRam(t', at + b, at + b + rs[b].n)
       else t' == t
  }

  lemma FreedNoRam(t: Tables, t': Tables, a: int, b: int, again: bool)
    requires Valid(t) && RamFreed(t, t', a, b, again) && OnlyRam(t, a, b)
    ensures NoRam(t', a, b + 1) == true && ChangedOnly(t, t', a, b + 1) == true
  {
    assert 0 in t.owner ==> PageTables.OwnerOk(t, 0) == true;
    forall p | a <= p < b + 1 ensures !Owns(t'.owner.Keys, View(t', p)) { var v := View(t, p); }
  }

  /** What freeing a run does to the agreement of runs and page tables. */
  lemma FreedRunKeeps(rs: Runs, rs': Runs, t: Tables, t': Tables, at: int, P: int, b: int)
    requires Partition(rs, P) && b in rs && !rs[b].free && FreedRun(rs, rs', t, t', at, b) == true
    ensures Served(rs, t, at) ==> Served(rs', t', at) == true
    ensures Clean(rs, t, at) ==> Clean(rs', t', at) == true
  {
    if Clean(rs, t, at) && !rs[b].alloc { CleanNoRam(rs, t, at, b); }
    GiveKeeps(rs, t, t', at, P, b, rs'[Lo(rs, b)].item);
  }

  /** Free run b has room for n pages. */
  ghost predicate RoomIn(rs: Runs, b: int, n: int) { b in rs && rs[b].free && rs[b].n >= n }

  /** Some free run has. */
  ghost predicate Fits(rs: Runs, n: int) { n > 0 && exists b :: RoomIn(rs, b, n) }

  /** Stage three of the search would drop a rest. */
  ghost predicate DropsRest(s: VirtualMemory.Store, n: int) { n > 0 && VirtualMemory.LosesRest(s, n) }

  lemma PageIndex(virtualBase: int, pointer: int, b: int)
    requires pointer == virtualBase + 4096 * b
    ensures (pointer - virtualBase) / 4096 == b && (pointer - virtualBase) % 4096 == 0
  {
  }

  /** n pages of free run x of rs were reserved and not touched yet. */
  ghost predicate Reserved(rs: Runs, rs': Runs, t: Tables, at: int, P: int, x: int, n: int)
  {
    && RoomIn(rs, x, n) && 1 <= n && 0 <= x && x + n <= P && rs' == Flagged(Take(rs, x, n, rs[x].item), x)
    && Faults(View(t, at + x)) && AllBacked(t, at + x, at + x + n)
  }

  /** They are free again, but still to be allocated on demand. */
  ghost predicate OnDemand(rs: Runs, rs': Runs, t: Tables, at: int, P: int, x: int, n: int)
  {
    && RoomIn(rs, x, n) && 1 <= n && 0 <= x && x + n <= P && x in rs'
    && rs' == rs[x := Run(rs[x].n, rs[x].prev, true, rs'[x].item, false)]
    && Faults(View(t, at + x)) && AllDirs(t, at + x, at + x + n - 1) && !Live(rs', x)
  }

  /** The first of them got a frame. */
  ghost predicate Touched(rs: Runs, rs': Runs, t: Tables, at: int, P: int, x: int, n: int)
  {
    && RoomIn(rs, x, n) && 1 <= n && 0 <= x && x + n <= P && x in rs'
    && rs' == rs[x := Run(rs[x].n, rs[x].prev, true, rs'[x].item, false)]
    && Owns(t.owner.Keys, View(t, at + x)) && AllDirs(t, at + x, at + x + n - 1)
  }

  lemma IsReserved(rs: Runs, rs': Runs, t: Tables, t': Tables, at: int, b: int, n: int, P: int)
    requires Partition(rs, P) && n >= 1 && Allocated(rs, rs', t, t', at, b, n, Request(false, true, false, false))
    ensures Reserved(rs, rs', t', at, P, b, n) == true
  {
    assert RunOk(rs, P, b) == true;
    var v := View(t', at + b);
  }

  /** A flag makes no difference to a run that is freed. */
  lemma GiveFlagged(rs: Runs, P: int, x: int, n: int, item: int)
    requires Partition(rs, P) && RoomIn(rs, x, n) && 1 <= n
    ensures var r := Flagged(Take(rs, x, n, rs[x].item), x);
            && x in r && !r[x].free && r[x].n == n && r[x].alloc && Lo(r, x) == x
            && Give(r, x, item) == rs[x := Run(rs[x].n, rs[x].prev, true, item, false)]
  {
    var r := Take(rs, x, n, rs[x].item);
    TakeThenGive(rs, P, x, n, rs[x].item, item);
    TakeNeighbours(rs, P, x, n, rs[x].item);
    assert RunOk(rs, P, x) == true;
    assert Lo(Flagged(r, x), x) == x && Hi(Flagged(r, x), x) == Hi(r, x);
    assert Give(Flagged(r, x), x, item) == Give(r, x, item);
  }

  lemma StillOnDemand(rs: Runs, rs1: Runs, rs2: Runs, t: Tables, t': Tables, at: int, P: int, x: int, n: int)
    requires Partition(rs, P) && Reserved(rs, rs1, t, at, P, x, n) == true && FreedRun(rs1, rs2, t, t', at, x) == true
    requires Partition(rs2, P)
    ensures OnDemand(rs, rs2, t', at, P, x, n) == true && (t.free != [] ==> t'.free != [])
  {
    GiveFlagged(rs, P, x, n, rs2[Lo(rs1, x)].item);
    var v := View(t', at + x);
    BackedFacts(t, at + x, at + x + n);
    assert RamFreed(t, t', at + x, at + x + n - 1, false);
    if t.free != [] {
      var f := t.free[0];
      assert f in t.free && f in t'.free;
    }
    assert RunOk(rs, P, x) == true && InRun(rs2, x, x);
    forall c | InRun(rs2, c, x) ensures rs2[c].free { OneRun(rs2, P, x, c, x); }
  }

  lemma IsTouched(rs: Runs, rs': Runs, t: Tables, t': Tables, at: int, P: int, x: int, n: int, frame: int)
    requires OnDemand(rs, rs', t, at, P, x, n) == true && FrameGiven(t, t', at + x, frame) && t'.dirs == t.dirs
    ensures Touched(rs, rs', t', at, P, x, n) == true
  {
    var v := View(t', at + x);
  }

  /** If no other run fits, `alloc` takes the pages of the touched one, and loses its frame. */
  lemma SameRunAgain(rs: Runs, rs1: Runs, rs2: Runs, t: Tables, t': Tables, virtualBase: nat, at: nat, P: int, x: int,
                     b: int, n: int, ok: bool, pointer: nat)
    requires Touched(rs, rs1, t, at, P, x, n) == true && Tree(t)
    requires forall c, d :: RoomIn(rs, c, n) && RoomIn(rs, d, n) ==> c == d
    requires AllocEnds(rs1, rs2, t, t', virtualBase, at, b, n, Request(false, true, false, false), ok, pointer) == true
    ensures b == x && ok && pointer != 0 && Lost(t', View(t, at + x).addr)
  {
    assert RoomIn(rs, x, n) && RoomIn(rs1, x, n) && Fits(rs1, n);
    assert RoomIn(rs, b, n);
    AllBelowIsAllDirs(t, at + x, at + x + n - 1);
    DirsTaken(t, t, at + x, at + x + n - 1);
    var v := View(t, at + x);
  }

  /** A page that was committed: its frame was on the stack, and so were those of the directories it needed. */
  lemma CommitOne(t: Tables, t1: Tables, t2: Tables, p: nat, frame: int, flags: Flags)
    requires Walkable(t) && |t.free| > 0 && t1 == Popped(t) && frame == t.free[|t.free| - 1] && flags.present
    requires Mapped(t1, t2, p, Entry(frame, flags)) == true && Walked(t1, t2, 1, p, p, true) == true
    requires HeldFrames(t2) == HeldFrames(t)
    ensures RunBacked(t, t2, p, p + 1, flags, true) == true && Paid(t, t2, p, p + 1, 1) == true
  {
    PopWalkable(t);
    PathNode(Node(4, p / 512), p);
    assert Below(Node(4, p / 512), 1, p, p) == true;
    assert Backed(t2, p) == true by { var v := View(t2, p); }
    if Valid(t) { PopHeld(t); var v := View(t, p); }
    forall f | f in t.owner ensures f in t2.owner && (t2.owner[f] == t.owner[f] || t.owner[f].Free?) {
      if f != frame { var o := t2.owner[f]; }
    }
    forall q | !(p <= q < p + 1) ensures View(t2, q) == View(t, q) { var v := View(t1, q); }
  }

  lemma ReservedRun(t: Tables, t': Tables, lo: nat, hi: int, flags: Flags)
    requires Walkable(t') && FlagsReplaced(t, t', lo, hi - 1, flags) && !flags.present && flags.alloc
    requires Walked(t, t', 1, lo, hi - 1, true) == true
    ensures RunBacked(t, t', lo, hi, flags, false) == true
  {
    AllBelowIsAllDirs(t', lo, hi - 1);
    forall p: int | lo <= p < hi ensures Backed(t', p) == true {
      var v := View(t', p);
      assert Node(4, p / 512) in t'.dirs;
    }
    forall f | f in t.owner ensures f in t'.owner && (t'.owner[f] == t.owner[f] || t.owner[f].Free?) {
      var o := t'.owner[f];
    }
  }

  class MemoryManager {
    const vmm: VirtualMemory.VirtualMemoryManager
    const paging: PagingManager
    const virtualBase: nat

    /** Every frame of RAM has its owner, and no code holds one. */
    ghost predicate Owned()
      reads this, paging
    {
      paging.Good() && HeldFrames(paging.Snapshot()) == {}
    }

    /** Besides, the page allocator is in order and the page tables serve its runs. */
    ghost predicate Steady()
      reads this, vmm, vmm.memoryRegions, vmm.freeListTable, vmm.freeListTableCounters, paging
    {
      && vmm.Valid() && Owned() && Placed(virtualBase, vmm.virtualPages, paging.slots)
      && Served(vmm.runs, paging.Snapshot(), FirstPage(virtualBase))
    }

    /** Besides, only pages of busy runs with VMM_REG_ALLOC_FLAG have RAM. */
    ghost predicate Valid()
      reads this, vmm, vmm.memoryRegions, vmm.freeListTable, vmm.freeListTableCounters, paging
    {
      Steady() && Clean(vmm.runs, paging.Snapshot(), FirstPage(virtualBase))
    }

    constructor (vmm: VirtualMemory.VirtualMemoryManager, paging: PagingManager, virtualBase: nat)
      requires vmm.Valid() && paging.Good() && HeldFrames(paging.Snapshot()) == {}
      requires Placed(virtualBase, vmm.virtualPages, paging.slots)
      requires vmm.runs == VirtualMemory.OneFreeRun(vmm.virtualPages, vmm.itemsFirst)
      requires NoRam(paging.Snapshot(), FirstPage(virtualBase), FirstPage(virtualBase) + vmm.virtualPages)
      ensures Valid() && this.vmm == vmm && this.paging == paging && this.virtualBase == virtualBase
    {
      this.vmm, this.paging, this.virtualBase := vmm, paging, virtualBase;
      new;
      forall b, x ensures ServedAt(vmm.runs, paging.Snapshot(), FirstPage(virtualBase), b, x) == true {}
      forall b, x ensures CleanAt(vmm.runs, paging.Snapshot(), FirstPage(virtualBase), b, x) == true {}
    }

    /** Between any two calls every frame of RAM is free, a directory or mapped by one present leaf entry: one of these,
        and once. */
    lemma OneOwner(f: int)
      requires Owned() && f in paging.owner
      ensures var t := paging.Snapshot();
              && (IsFree(t, f) || IsDirectory(t, f) || IsMapped(t, f))
              && !(IsFree(t, f) && IsDirectory(t, f)) && !(IsFree(t, f) && IsMapped(t, f))
              && !(IsDirectory(t, f) && IsMapped(t, f))
              && forall p, q :: MappedBy(t, p, f) && MappedBy(t, q, f) ==> p == q
    {
      PageTables.OneOwner(paging.Snapshot(), f);
    }

    /** A page gets a frame. */
    method CommitPage(page: int, flags: Flags, ghost p: int) returns (ok: bool)
      requires paging.Rooted() == true && Placed(virtualBase, vmm.virtualPages, paging.slots) == true && flags.present
      requires 0 <= page < vmm.virtualPages && p == FirstPage(virtualBase) + page
      modifies paging
      ensures ok ==>
                && paging.Rooted() == true && Paid(old(paging.Snapshot()), paging.Snapshot(), p, p + 1, 1) == true
                && RunBacked(old(paging.Snapshot()), paging.Snapshot(), p, p + 1, flags, true) == true
      ensures !ok ==> Short(old(paging.Snapshot()), paging.Snapshot(), p) == true
    {
      ghost var t := paging.Snapshot();
      PlacedPage(virtualBase, vmm.virtualPages, paging.slots, page);
      var frame;
      ok, frame := paging.AllocPage();
      if !ok { return; }
      ghost var t1 := paging.Snapshot();
      ok := paging.MapPage(virtualBase + 4096 * page, frame, flags);
      if ok { CommitOne(t, t1, paging.Snapshot(), p, frame, flags); }
    }

    /** The loop of `alloc` with VMM_COMMIT: every page gets a frame. The kernel panics exactly if frames are short. */
    method Commit(base: int, numPages: int, flags: Flags, ghost lo: int, ghost hi: int) returns (ok: bool)
      requires paging.Rooted() == true && Placed(virtualBase, vmm.virtualPages, paging.slots) == true && flags.present
      requires 0 <= base && 1 <= numPages && base + numPages <= vmm.virtualPages
      requires lo == FirstPage(virtualBase) + base && hi == lo + numPages
      modifies paging
      ensures var t, t' := old(paging.Snapshot()), paging.Snapshot();
              && (ok ==> paging.Rooted() == true && RunBacked(t, t', lo, hi, flags, true) == true)
              && (ok <==> Missing(t, lo, hi - 1) + numPages <= |t.free|)
              && (ok ==> |t'.free| == |t.free| - (Missing(t, lo, hi - 1) + numPages))
    {
      ghost var t := paging.Snapshot();
      BackedNone(t, lo, flags);
      var i := 0;
      ghost var p := lo;
      while i < numPages
        invariant 0 <= i <= numPages && p == lo + i && paging.Rooted() == true
        invariant RunBacked(t, paging.Snapshot(), lo, p, flags, true) == true
        invariant Paid(t, paging.Snapshot(), lo, p, i) == true
      {
        ghost var t1 := paging.Snapshot();
        ok := CommitPage(base + i, flags, p);
        if !ok {
          ShortFails(t, t1, paging.Snapshot(), lo, p, hi);
          return;
        }
        BackedNext(t, t1, paging.Snapshot(), lo, p, flags);
        p, i := p + 1, i + 1;
      }
      PaidExactly(t, paging.Snapshot(), lo, hi, numPages);
      ok := true;
    }

    /** `alloc` without VMM_COMMIT: every page is to be allocated on demand. The kernel panics exactly if there are not
        enough frames for directories. */
    method Reserve(base: int, size: nat, numPages: int, flags: Flags, ghost lo: int, ghost hi: int) returns (ok: bool)
      requires paging.Rooted() == true && Placed(virtualBase, vmm.virtualPages, paging.slots) == true && !flags.present
      requires flags.alloc
      requires size <= VirtualMemory.INVALID && 0 <= base && 1 <= numPages == NumPages(size)
      requires base + numPages <= vmm.virtualPages && lo == FirstPage(virtualBase) + base && hi == lo + numPages
      modifies paging
      ensures var t, t' := old(paging.Snapshot()), paging.Snapshot();
              && (ok ==> paging.Rooted() == true && RunBacked(t, t', lo, hi, flags, false) == true)
              && (ok <==> Missing(t, lo, hi - 1) <= |t.free|)
              && (ok ==> |t'.free| == |t.free| - Missing(t, lo, hi - 1))
    {
      ghost var t := paging.Snapshot();
      PagesOf(virtualBase, vmm.virtualPages, base, size);
      PlacedPages(virtualBase, vmm.virtualPages, paging.slots, base, size);
      ok := paging.ReplaceFlags(virtualBase + 4096 * base, size, flags, lo, hi - 1);
      if ok {
        ReservedRun(t, paging.Snapshot(), lo, hi, flags);
        PaidExactly(t, paging.Snapshot(), lo, hi, 0);
      }
    }

    /** Backs a run of pages as requested. */
    method Back(base: int, size: nat, numPages: int, request: Request, ghost lo: int, ghost hi: int) returns (ok: bool)
      requires paging.Rooted() == true && Placed(virtualBase, vmm.virtualPages, paging.slots) == true && Backs(request)
      requires size <= VirtualMemory.INVALID && 0 <= base && 1 <= numPages == NumPages(size)
      requires base + numPages <= vmm.virtualPages && lo == FirstPage(virtualBase) + base && hi == lo + numPages
      modifies paging
      ensures var t, t' := old(paging.Snapshot()), paging.Snapshot();
              && (ok ==> paging.Rooted() == true)
              && (ok ==> RunBacked(t, t', lo, hi, PageFlags(request), request.commit) == true)
              && Charged(t, t', lo, hi, request, ok) == true
    {
      if request.commit {
        ok := Commit(base, numPages, PageFlags(request), lo, hi);
      } else {
        ok := Reserve(base, size, numPages, PageFlags(request), lo, hi);
      }
    }

    /** `alloc`: the address of a run of pages, of which b is the first, or null. The allocator stays in order exactly
        if stage three does not drop a rest, and frames keep their one owner exactly if no page of the run had RAM. */
    method Alloc(size: nat, request: Request) returns (ok: bool, pointer: nat, ghost b: int)
      requires Steady() == true && size <= VirtualMemory.INVALID
      modifies vmm, vmm.memoryRegions, vmm.freeListTable, vmm.freeListTableCounters, paging
      ensures AllocEnds(old(vmm.runs), vmm.runs, old(paging.Snapshot()), paging.Snapshot(), virtualBase,
                        FirstPage(virtualBase), b, NumPages(size), request, ok, pointer) == true
      ensures ok ==> (vmm.Valid() <==> !DropsRest(old(vmm.Snapshot()), NumPages(size)))
      ensures ok ==> (Owned() <==> pointer == 0 || NothingToLose(old(paging.Snapshot()), FirstPage(virtualBase), b,
                                                                 NumPages(size), request))
      ensures ok && vmm.Valid() && Owned() ==> Steady() && (old(Valid()) ==> Valid())
      ensures ok && old(Valid()) ==> Owned()
    {
      var numPages := NumPages(size);
      if numPages == 0 {
        return true, 0, 0;
      }
      ok, pointer, b := AllocRun(size, numPages, request, FirstPage(virtualBase));
    }

    /** `alloc` for at least one page. */
    method AllocRun(size: nat, numPages: int, request: Request, ghost at: int)
      returns (ok: bool, pointer: nat, ghost b: int)
      requires vmm.Valid() == true && Owned() == true && Placed(virtualBase, vmm.virtualPages, paging.slots) == true
      requires size <= VirtualMemory.INVALID && 1 <= numPages == NumPages(size) && at == FirstPage(virtualBase)
      modifies vmm, vmm.memoryRegions, vmm.freeListTable, vmm.freeListTableCounters, paging
      ensures var rs, rs', t, t' := old(vmm.runs), vmm.runs, old(paging.Snapshot()), paging.Snapshot();
              && AllocEnds(rs, rs', t, t', virtualBase, at, b, numPages, request, ok, pointer) == true
              && (ok ==> (vmm.Valid() <==> !DropsRest(old(vmm.Snapshot()), numPages)))
              && (ok ==> (Owned() <==> pointer == 0 || NothingToLose(t, at, b, numPages, request)))
              && (ok && Served(rs, t, at) ==> Served(rs', t', at) == true)
              && (ok && Clean(rs, t, at) ==> Clean(rs', t', at) == true && Owned())
    {
      ghost var rs, t := vmm.runs, paging.Snapshot();
      var base := TakePages(numPages);
      if base == VirtualMemory.INVALID {
        return true, 0, 0;
      }
      pointer, b := virtualBase + 4096 * base, base;
      ok := Place(base, size, numPages, request, rs, at);
      AllocDone(rs, vmm.runs, t, paging.Snapshot(), virtualBase, at, vmm.virtualPages, base, numPages, request, ok,
                pointer);
    }

    /** `allocPages`, as `alloc` relies on it. */
    method TakePages(numPages: int) returns (base: int)
      requires vmm.Valid() == true && 1 <= numPages <= VirtualMemory.INVALID
      modifies vmm, vmm.memoryRegions, vmm.freeListTable, vmm.freeListTableCounters
      ensures base == VirtualMemory.INVALID <==> !Fits(old(vmm.runs), numPages)
      ensures base == VirtualMemory.INVALID ==> vmm.runs == old(vmm.runs)
      ensures vmm.Valid() <==> !DropsRest(old(vmm.Snapshot()), numPages)
      ensures base == VirtualMemory.INVALID ==> vmm.Valid() == true
      ensures base != VirtualMemory.INVALID ==>
                && Chosen(old(vmm.runs), vmm.runs, vmm.virtualPages, base, numPages) == true && vmm.Taken(base) == true
    {
      ghost var rs, stage := vmm.runs, 0;
      base, stage := vmm.AllocPages(numPages);
      if base != VirtualMemory.INVALID { assert RunOk(rs, vmm.virtualPages, base) && RoomIn(rs, base, numPages); }
    }

    /** The part of `alloc` behind `allocPages`. */
    method Place(base: int, size: nat, numPages: int, request: Request, ghost rs: Runs, ghost at: int)
      returns (ok: bool)
      requires paging.Rooted() == true && Placed(virtualBase, vmm.virtualPages, paging.slots) == true
      requires size <= VirtualMemory.INVALID && 1 <= numPages == NumPages(size) && at == FirstPage(virtualBase)
      requires Chosen(rs, vmm.runs, vmm.virtualPages, base, numPages) == true && vmm.Taken(base) == true
      modifies vmm, vmm.memoryRegions, paging
      ensures ok ==> paging.Rooted() == true && (vmm.Valid() <==> old(vmm.Valid()))
      ensures ok ==> Allocated(rs, vmm.runs, old(paging.Snapshot()), paging.Snapshot(), at, base, numPages,
                               request) == true
      ensures Charged(old(paging.Snapshot()), paging.Snapshot(), at + base, at + base + numPages, request, ok) == true
    {
      ghost var t := paging.Snapshot();
      ok := true;
      if request.commit || request.readWrite || request.readOnly {
        ok := Back(base, size, numPages, request, at + base, at + base + numPages);
        if ok {
          IsAllocated(rs, vmm.runs, t, paging.Snapshot(), at, base, numPages, vmm.virtualPages, request);
          vmm.SetAllocFlag(base);
        }
      } else {
        IsAllocated(rs, vmm.runs, t, t, at, base, numPages, vmm.virtualPages, request);
      }
    }

    /** `free`: only the address of a busy run is accepted; its frames go back to the stack. The kernel never panics
        here. */
    method Free(pointer: nat) returns (done: bool)
      requires Steady() == true && (virtualBase <= pointer ==> (pointer - virtualBase) % 4096 == 0)
      modifies vmm, vmm.memoryRegions, vmm.freeListTable, vmm.freeListTableCounters, paging
      ensures Steady() && (old(Valid()) ==> Valid())
      ensures var b := (pointer - virtualBase) / 4096;
              done <==> virtualBase <= pointer && b < vmm.virtualPages && b in old(vmm.runs) && !old(vmm.runs)[b].free
      ensures !done ==> vmm.runs == old(vmm.runs) && paging.Snapshot() == old(paging.Snapshot())
      ensures done ==> FreedRun(old(vmm.runs), vmm.runs, old(paging.Snapshot()), paging.Snapshot(),
                                FirstPage(virtualBase), (pointer - virtualBase) / 4096) == true
    {
      if pointer < virtualBase {
        return false;
      }
      var base := (pointer - virtualBase) / 4096;
      if base >= vmm.virtualPages {
        return false;
      }
      ghost var rs, t, at := vmm.runs, paging.Snapshot(), FirstPage(virtualBase);
      TagTellsBusyBase(vmm.memoryRegions[..], rs, vmm.virtualPages, base);
      var free := vmm.memoryRegions[base].alloc;
      var numPages := vmm.FreePages(base);
      if numPages == 0 {
        return false;
      }
      assert RunOk(rs, vmm.virtualPages, base) == true;
      if free { FreeRun(base, numPages, rs); }
      FreedRunKeeps(rs, vmm.runs, t, paging.Snapshot(), at, vmm.virtualPages, base);
      done := true;
    }

    /** Releases the frames of a run. */
    method FreeRun(base: int, numPages: int, ghost rs: Runs)
      requires Owned() == true && Placed(virtualBase, vmm.virtualPages, paging.slots) == true
      requires Served(rs, paging.Snapshot(), FirstPage(virtualBase))
      requires base in rs && !rs[base].free && rs[base].alloc && numPages == rs[base].n && 0 <= base && 1 <= numPages
      requires base + numPages <= vmm.virtualPages
      requires vmm.virtualPages < VirtualMemory.INVALID
      modifies paging
      ensures Owned() == true && paging.dirs == old(paging.dirs)
      ensures var lo := FirstPage(virtualBase) + base;
              && RamFreed(old(paging.Snapshot()), paging.Snapshot(), lo, lo + numPages - 1, false) == true
              && NoRam(paging.Snapshot(), lo, lo + numPages)
    {
      ghost var t, lo := paging.Snapshot(), FirstPage(virtualBase) + base;
      ServedBacked(rs, t, FirstPage(virtualBase), base);
      WholePages(virtualBase, vmm.virtualPages, paging.slots, base, numPages);
      BackedFacts(t, lo, lo + numPages);
      var ok := paging.FreeRamPages(virtualBase + 4096 * base, numPages * 4096, false);
      FreedNoRam(t, paging.Snapshot(), lo, lo + numPages - 1, false);
    }

    /** The part of `freeRamPages` for boot memory. */
    method FreeBootMemory(physAddr: nat, size: nat) returns (ok: bool)
      requires Steady() == true
      modifies paging
      ensures FramesReturned(old(paging.Snapshot()), paging.Snapshot(), physAddr, size, ok, Owned()) == true
      ensures Owned() ==> Steady() == true && (old(Valid()) ==> Valid() == true)
    {
      if physAddr % 4096 != 0 {
        return false;
      }
      ghost var t := paging.Snapshot();
      ghost var n := PushFrames(physAddr, size);
      PushedExact(t, paging.Snapshot(), physAddr, n);
      if Owned() { PushedServes(vmm.runs, t, paging.Snapshot(), FirstPage(virtualBase), physAddr, n); }
      ok := true;
    }

    /** Its loop. */
    method PushFrames(physAddr: nat, size: nat) returns (ghost n: nat)
      modifies paging
      ensures n == (size + 4095) / 4096
      ensures PushedRun(old(paging.Snapshot()), paging.Snapshot(), physAddr, n) == true
    {
      ghost var t := paging.Snapshot();
      n := 0;
      var addr := physAddr;
      while addr < physAddr + size
        invariant addr == physAddr + 4096 * n && addr < physAddr + size + 4096
        invariant PushedRun(t, paging.Snapshot(), physAddr, n) == true
      {
        PushedNext(t, paging.Snapshot(), physAddr, n);
        paging.FreePage(addr);
        addr, n := addr + 4096, n + 1;
      }
    }

    /** The part for pages of runs: their frames go back to the stack, and they are to be allocated on demand again if
        so asked for. The kernel does not panic on pages of runs with VMM_REG_ALLOC_FLAG. */
    method FreePagedMemory(base: nat, size: nat, again: bool) returns (ok: bool)
      requires Steady() == true && Releasable(paging.Snapshot(), base, size) == true
      modifies paging
      ensures ok && Steady() == true && (old(Valid()) ==> Valid() == true)
      ensures PagesReleased(old(paging.Snapshot()), paging.Snapshot(), base, size, again) == true
    {
      ghost var t, a, b := paging.Snapshot(), FirstPage(base), LastFreed(base, size);
      BackedFacts(t, a, b + 1);
      if size <= 4096 {
        ok := paging.FreeRamPage(base, again);
      } else {
        ok := paging.FreeRamPages(base, size, again);
      }
      FreedKeeps(vmm.runs, t, paging.Snapshot(), FirstPage(virtualBase), a, b, again);
    }

    /** `freeRamPages`, which the heap calls on pages inside its free blocks, and the module loader on boot memory. */
    method FreeRamPages(base: nat, size: nat, again: bool) returns (ok: bool)
      requires Steady() == true && (!InWindow(base) ==> Releasable(paging.Snapshot(), base, size) == true)
      modifies paging
      ensures Owned() ==> Steady() == true && (old(Valid()) ==> Valid() == true)
      ensures if InWindow(base)
              then FramesReturned(old(paging.Snapshot()), paging.Snapshot(), base - RAM_VIRTUAL_BASE, size, ok,
                                  Owned()) == true
              else ok && Owned() && PagesReleased(old(paging.Snapshot()), paging.Snapshot(), base, size, again) == true
    {
      if InWindow(base) {
        ok := FreeBootMemory(base - RAM_VIRTUAL_BASE, size);
      } else {
        ok := FreePagedMemory(base, size, again);
      }
    }

    /** The leaf entry of an address. */
    ghost function EntryOf(addr: nat): Entry
      reads paging
    {
      View(paging.Snapshot(), FirstPage(addr))
    }

    /** The address belongs to the allocator's range, but not to a busy run with VMM_REG_ALLOC_FLAG. */
    ghost predicate Stray(addr: nat)
      reads this, vmm
    {
      0 <= FirstPage(addr) - FirstPage(virtualBase) < vmm.virtualPages
      && !Live(vmm.runs, FirstPage(addr) - FirstPage(virtualBase))
    }

    /** A page fault at any address, the allocator's own tables included. Ownership of frames is always kept; the leaf
        entries stay in agreement with the runs exactly when the fault did not give a frame to a page of the allocator's
        range outside the runs with VMM_REG_ALLOC_FLAG. */
    method PageFault(addr: nat, protection: bool) returns (ok: bool, handled: bool)
      requires Steady() == true && FirstPage(addr) / Size(1) in paging.slots
      modifies paging
      ensures ok <==> protection || !Faults(old(EntryOf(addr))) || old(paging.free) != []
      ensures ok ==> (handled <==> !protection && (old(EntryOf(addr)).flags.present || old(EntryOf(addr)).flags.alloc))
      ensures Steady() && paging.dirs == old(paging.dirs)
      ensures ok ==> (Valid() <==> old(Valid()) && (protection || !Faults(old(EntryOf(addr))) || !Stray(addr)))
      ensures ok && !protection && Faults(old(EntryOf(addr))) ==>
                && old(paging.free) != [] && paging.free == old(paging.free)[..|old(paging.free)| - 1]
                && FrameGiven(old(paging.Snapshot()), paging.Snapshot(), FirstPage(addr),
                              old(paging.free)[|old(paging.free)| - 1])
      ensures !ok || protection || !Faults(old(EntryOf(addr))) ==> paging.Snapshot() == old(paging.Snapshot())
    {
      ghost var t, at, p := paging.Snapshot(), FirstPage(virtualBase), FirstPage(addr);
      ok, handled := paging.OnPageFault(addr, protection);
      if ok && !protection && Faults(View(t, p)) {
        assert FreeOk(t, |t.free| - 1) == true;
        ghost var frame := t.free[|t.free| - 1];
        FaultServed(vmm.runs, t, paging.Snapshot(), at, p, frame);
        FaultClean(vmm.runs, t, paging.Snapshot(), at, vmm.virtualPages, p, frame);
      }
    }

    // How a frame gets lost: pages are reserved, freed, touched, and reserved again

    /** Reserves a run of pages, of which page x is the first. */
    method ReserveRun(size: nat) returns (ok: bool, pointer: nat, ghost x: int)
      requires Valid() == true && size <= VirtualMemory.INVALID && Fits(vmm.runs, NumPages(size))
      requires !DropsRest(vmm.Snapshot(), NumPages(size))
      modifies vmm, vmm.memoryRegions, vmm.freeListTable, vmm.freeListTableCounters, paging
      ensures |old(paging.free)| >= 3 * NumPages(size) ==> ok
      ensures ok ==>
                && Valid() == true && pointer == virtualBase + 4096 * x
                && Reserved(old(vmm.runs), vmm.runs, paging.Snapshot(), FirstPage(virtualBase), vmm.virtualPages, x,
                            NumPages(size)) == true
                && |paging.free| >= |old(paging.free)| - 3 * NumPages(size)
    {
      ghost var rs, t, at := vmm.runs, paging.Snapshot(), FirstPage(virtualBase);
      ok, pointer, x := Alloc(size, Request(false, true, false, false));
      EnoughFrames(rs, vmm.runs, t, paging.Snapshot(), virtualBase, at, vmm.virtualPages, x, NumPages(size),
                   Request(false, true, false, false), ok, pointer);
      if ok { IsReserved(rs, vmm.runs, t, paging.Snapshot(), at, x, NumPages(size), vmm.virtualPages); }
    }

    /** Pages that are freed without being touched are still on demand, although their run is free again. */
    method FreeUntouched(pointer: nat, ghost rs: Runs, ghost x: int, ghost n: int)
      requires Valid() == true && pointer == virtualBase + 4096 * x && Partition(rs, vmm.virtualPages) == true
      requires Reserved(rs, vmm.runs, paging.Snapshot(), FirstPage(virtualBase), vmm.virtualPages, x, n) == true
      modifies vmm, vmm.memoryRegions, vmm.freeListTable, vmm.freeListTableCounters, paging
      ensures Valid() == true && (old(paging.free) != [] ==> paging.free != [])
      ensures OnDemand(rs, vmm.runs, paging.Snapshot(), FirstPage(virtualBase), vmm.virtualPages, x, n) == true
    {
      ghost var rs1, t := vmm.runs, paging.Snapshot();
      PageIndex(virtualBase, pointer, x);
      var done := Free(pointer);
      StillOnDemand(rs, rs1, vmm.runs, t, paging.Snapshot(), FirstPage(virtualBase), vmm.virtualPages, x, n);
    }

    /** A fault on such a page gives a page of a free run a frame, and the leaf entries do not agree with the runs any
        more. */
    method FaultUntouched(pointer: nat, ghost rs: Runs, ghost x: int, ghost n: int) returns (ok: bool, handled: bool)
      requires Valid() == true && pointer == virtualBase + 4096 * x
      requires OnDemand(rs, vmm.runs, paging.Snapshot(), FirstPage(virtualBase), vmm.virtualPages, x, n) == true
      modifies paging
      ensures ok <==> old(paging.free) != []
      ensures ok ==> handled && Steady() == true && !Valid()
      ensures ok ==> Touched(rs, vmm.runs, paging.Snapshot(), FirstPage(virtualBase), vmm.virtualPages, x, n) == true
    {
      ghost var t := paging.Snapshot();
      PlacedPage(virtualBase, vmm.virtualPages, paging.slots, x);
      ok, handled := PageFault(pointer, false);
      if ok {
        IsTouched(rs, vmm.runs, t, paging.Snapshot(), FirstPage(virtualBase), vmm.virtualPages, x, n,
                  t.free[|t.free| - 1]);
      }
    }

    /** Reserving pages, freeing them and touching one does it. This needs nothing but a free run that is large enough
        and frames. */
    method FaultAfterFree(size: nat) returns (ok: bool, handled: bool, ghost x: int)
      requires Valid() == true && size <= VirtualMemory.INVALID && Fits(vmm.runs, NumPages(size))
      requires !DropsRest(vmm.Snapshot(), NumPages(size))
      modifies vmm, vmm.memoryRegions, vmm.freeListTable, vmm.freeListTableCounters, paging
      ensures |old(paging.free)| > 3 * NumPages(size) ==> ok
      ensures ok ==> handled && Steady() == true && !Valid()
      ensures ok ==> Touched(old(vmm.runs), vmm.runs, paging.Snapshot(), FirstPage(virtualBase), vmm.virtualPages, x,
                             NumPages(size)) == true
    {
      var pointer;
      ghost var rs := vmm.runs;
      handled := false;
      ok, pointer, x := ReserveRun(size);
      if !ok { return; }
      FreeUntouched(pointer, rs, x, NumPages(size));
      ok, handled := FaultUntouched(pointer, rs, x, NumPages(size));
    }

    /** If no other run fits, reserving the pages again loses the frame: nothing owns it any more. */
    method LoseFrame(size: nat) returns (ok: bool, ghost f: int)
      requires Valid() == true && size <= VirtualMemory.INVALID && Fits(vmm.runs, NumPages(size))
      requires !DropsRest(vmm.Snapshot(), NumPages(size))
      requires forall b, c :: RoomIn(vmm.runs, b, NumPages(size)) && RoomIn(vmm.runs, c, NumPages(size)) ==> b == c
      modifies vmm, vmm.memoryRegions, vmm.freeListTable, vmm.freeListTableCounters, paging
      ensures |old(paging.free)| > 3 * NumPages(size) ==> ok
      ensures ok ==> Lost(paging.Snapshot(), f) && !Owned()
    {
      ghost var x, b, rs, at := 0, 0, vmm.runs, FirstPage(virtualBase);
      var handled, pointer;
      f := 0;
      ok, handled, x := FaultAfterFree(size);
      if !ok { return; }
      ghost var rs1, t := vmm.runs, paging.Snapshot();
      ok, pointer, b := Alloc(size, Request(false, true, false, false));
      f := View(t, at + x).addr;
      SameRunAgain(rs, rs1, vmm.runs, t, paging.Snapshot(), virtualBase, at, vmm.virtualPages, x, b, NumPages(size), ok,
                   pointer);
    }
  }

  // ---------------------------------------------------------------------------------
  // The start
  // ---------------------------------------------------------------------------------

  /** The kernel's memory management from the start: tables taken over from the boot loader, and the tag table and the
      list items of the page allocator reserved in front of the pages it manages. The kernel panics exactly if there are
      not enough frames for the directories of these areas. */
  method Start(root: int, mem: map<int, seq<Entry>>, free: seq<int>, ghost dirs: map<Node, int>, ghost slots: set<int>,
               needPages: nat, freeStart: nat)
    returns (ok: bool, paging: PagingManager, manager: MemoryManager?)
    requires HandedOver(mem, free, dirs, slots) && Node(1, 0) in dirs && dirs[Node(1, 0)] == root
    requires Placed(freeStart, needPages, slots) && needPages < VirtualMemory.INVALID
    requires VirtualMemory.PagesFor((needPages + 1) * 8) + VirtualMemory.PagesFor(needPages * 32) < needPages
    ensures ok ==> manager != null && fresh(manager) && manager.paging == paging && manager.Valid()
    ensures var used := VirtualMemory.PagesFor((needPages + 1) * 8) + VirtualMemory.PagesFor(needPages * 32);
            var first := FirstPage(freeStart);
            ok <==> Missing(FirstTables(mem, free, dirs, slots), first, first + used - 1) <= |free|
  {
    paging := new PagingManager(root, mem, free, dirs, slots);
    manager := null;
    var regionsPages, itemPages := VirtualMemory.PagesFor((needPages + 1) * 8), VirtualMemory.PagesFor(needPages * 32);
    ok := ReserveAreas(paging, freeStart, needPages, regionsPages, itemPages, FirstPage(freeStart),
                       FirstPage(freeStart) + (regionsPages + itemPages) - 1);
    if !ok { return; }
    manager := Manage(paging, freeStart, needPages);
  }

  /** The two calls of `setPagesFlags` in the constructor of the page allocator. */
  method ReserveAreas(paging: PagingManager, freeStart: nat, needPages: nat, regionsPages: nat, itemPages: nat,
                      ghost a: int, ghost b: int) returns (ok: bool)
    requires regionsPages >= 1 && itemPages >= 1 && regionsPages + itemPages <= needPages < VirtualMemory.INVALID
    requires paging.Good() && HeldFrames(paging.Snapshot()) == {} && Placed(freeStart, needPages, paging.slots)
    requires NoRamAtAll(paging.Snapshot())
    requires a == FirstPage(freeStart) && b == a + (regionsPages + itemPages) - 1
    modifies paging
    ensures ok ==> paging.Good() && HeldFrames(paging.Snapshot()) == {} && NoRamAtAll(paging.Snapshot())
    ensures ok <==> Missing(old(paging.Snapshot()), a, b) <= |old(paging.free)|
  {
    ghost var t := paging.Snapshot();
    ok := ReserveArea(paging, freeStart, needPages, 0, regionsPages, a, a + regionsPages - 1);
    if !ok {
      WalkedShort(t, paging.Snapshot(), 1, a, a + regionsPages - 1, b);
      WalkExact(t, paging.Snapshot(), a, b, false);
      return;
    }
    ghost var t1 := paging.Snapshot();
    ok := ReserveArea(paging, freeStart, needPages, regionsPages, itemPages, a + regionsPages, b);
    WalkedJoin(t, t1, paging.Snapshot(), 1, a, a + regionsPages - 1, b, ok);
    WalkExact(t, paging.Snapshot(), a, b, ok);
  }

  /** The page allocator of the pages behind its own tables, over page tables without RAM. */
  method Manage(paging: PagingManager, freeStart: nat, needPages: nat) returns (manager: MemoryManager)
    requires paging.Good() == true && HeldFrames(paging.Snapshot()) == {} && NoRamAtAll(paging.Snapshot())
    requires Placed(freeStart, needPages, paging.slots) && needPages < VirtualMemory.INVALID
    requires VirtualMemory.PagesFor((needPages + 1) * 8) + VirtualMemory.PagesFor(needPages * 32) < needPages
    ensures fresh(manager) && manager.paging == paging && manager.Valid() == true
  {
    var used := VirtualMemory.PagesFor((needPages + 1) * 8) + VirtualMemory.PagesFor(needPages * 32);
    var vmm := new VirtualMemory.VirtualMemoryManager(needPages, freeStart);
    PlacedRest(freeStart, needPages, paging.slots, used);
    manager := new MemoryManager(vmm, paging, freeStart + 4096 * used);
  }

  lemma PlacedRest(virtualBase: nat, P: int, slots: set<int>, used: nat)
    requires Placed(virtualBase, P, slots) && used < P
    ensures Placed(virtualBase + 4096 * used, P - used, slots)
    ensures FirstPage(virtualBase + 4096 * used) == FirstPage(virtualBase) + used
  {
    PageOf(virtualBase, P, used);
    LowPart(virtualBase, P, used);
    var q := virtualBase / 4096;
    assert virtualBase + 4096 * used == 4096 * (q + used);
  }

  /** Leaf entries map no RAM. */
  ghost predicate NoRamAtAll(t: Tables) { forall p {:trigger View(t, p)} :: !Owns(t.owner.Keys, View(t, p)) }

  /** Pages `from` to `from` + n - 1 of the area become pages to be allocated on demand, and zeroed then. */
  method ReserveArea(paging: PagingManager, freeStart: nat, needPages: nat, from: nat, n: nat, ghost a: int,
                     ghost b: int) returns (ok: bool)
    requires n >= 1 && paging.Good() && HeldFrames(paging.Snapshot()) == {}
             && Placed(freeStart, needPages, paging.slots)
    requires NoRamAtAll(paging.Snapshot()) && from + n <= needPages < VirtualMemory.INVALID
    requires a == FirstPage(freeStart) + from && b == a + n - 1
    modifies paging
    ensures ok ==> paging.Good() && HeldFrames(paging.Snapshot()) == {} && NoRamAtAll(paging.Snapshot())
    ensures Walked(old(paging.Snapshot()), paging.Snapshot(), 1, a, b, ok) == true
    ensures Frames(paging.Snapshot()) == Frames(old(paging.Snapshot())) && (!ok ==> paging.free == [])
  {
    WholePages(freeStart, needPages, paging.slots, from, n);
    ok := paging.ReplaceFlags(freeStart + 4096 * from, n * 4096, Flags(false, true, 0x402), a, b);
  }
}
