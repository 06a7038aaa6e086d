/** The 4-level page tables both page managers work on (section 4.5 of the Intel SDM, Volume 3A):
    frames of 512 entries, the tree of directories they form, and who owns each frame. */
module PageTables {

  /** The flag bits of an entry: PAGE_FLAG_PRESENT, PAGE_FLAG_ALLOCATED, and all others together. */
  datatype Flags = Flags(present: bool, alloc: bool, rest: bv12)

  const NONE := Flags(false, false, 0)

  /** A page-table entry: a frame address and flag bits. */
  datatype Entry = Entry(addr: int, flags: Flags)

  /** The entry that is the word 0. */
  const EMPTY := Entry(0, NONE)

  /** A directory in the tree: its level, 1 for the root, and the number of directories of that
      level before it if all were there. */
  datatype Node = Node(level: int, index: int)

  datatype Owner = Free(k: int) | Dir(n: Node) | Leaf(page: int) | Held

  /** Memory, by frame address, and the stack of free frames. The rest is history: where each
      directory is, who owns each frame of RAM, and the root slots that hold 4 KB mappings only. */
  datatype Tables = Tables(
    mem: map<int, seq<Entry>>,
    free: seq<int>,
    dirs: map<Node, int>,
    owner: map<int, Owner>,
    slots: set<int>)

  /** Pages per entry of a directory. */
  function Size(level: int): int
  {
    if level == 1 then 0x800_0000 else if level == 2 then 0x4_0000 else if level == 3 then 0x200 else 1
  }

  function Child(n: Node, i: int): Node { Node(n.level + 1, 512 * n.index + i) }

  function Parent(n: Node): Node { Node(n.level - 1, n.index / 512) }

  /** The leaf entry of a page; a page without a leaf directory has an empty one. */
  function View(t: Tables, p: int): Entry
  {
    var n := Node(4, p / 512);
    if n in t.dirs && t.dirs[n] in t.mem && |t.mem[t.dirs[n]]| == 512 then t.mem[t.dirs[n]][p % 512] else EMPTY
  }

  // ---------------------------------------------------------------------------------
  // The tree
  // ---------------------------------------------------------------------------------

  ghost predicate NodeOk(t: Tables, n: Node)
    requires n in t.dirs
  {
    && 1 <= n.level <= 4 && 0 <= n.index
    && (n.level == 1 ==> n.index == 0) && (n.level == 2 ==> n.index in t.slots)
    && (n.level > 1 ==> Parent(n) in t.dirs)
    && t.dirs[n] in t.mem && |t.mem[t.dirs[n]]| == 512
    && t.dirs[n] in t.owner && t.owner[t.dirs[n]] == Dir(n) && t.dirs[n] != 0
  }

  /** Entry i of directory n leads to the child directory, or is empty if there is none. */
  ghost predicate EntryOk(t: Tables, n: Node, i: int)
    requires n in t.dirs
  {
    t.dirs[n] in t.mem && |t.mem[t.dirs[n]]| == 512 && 0 <= i < 512 &&
    var e := t.mem[t.dirs[n]][i];
    if Child(n, i) in t.dirs then e.addr == t.dirs[Child(n, i)] else e == EMPTY
  }

  ghost predicate Inner(t: Tables, n: Node, i: int)
  {
    n in t.dirs && n.level < 4 && 0 <= i < 512 && (n.level == 1 ==> i in t.slots)
  }

  ghost predicate Tree(t: Tables)
  {
    && Node(1, 0) in t.dirs
    && (forall n {:trigger NodeOk(t, n)} :: n in t.dirs ==> NodeOk(t, n))
    && (forall n, i {:trigger EntryOk(t, n, i)} :: Inner(t, n, i) ==> EntryOk(t, n, i))
    && (forall i :: i in t.slots ==> 0 <= i < 512)
  }

  // ---------------------------------------------------------------------------------
  // Ownership of frames
  // ---------------------------------------------------------------------------------

  /** The entry maps a frame of RAM. */
  predicate Owns(keys: set<int>, e: Entry)
  {
    e.flags.present && e.addr in keys
  }

  ghost predicate LeafOk(t: Tables, p: int)
  {
    Owns(t.owner.Keys, View(t, p)) ==> t.owner[View(t, p).addr] == Leaf(p)
  }

  ghost predicate FreeOk(t: Tables, k: int)
    requires 0 <= k < |t.free|
  {
    t.free[k] in t.owner && t.owner[t.free[k]] == Free(k) && t.free[k] != 0
  }

  ghost predicate OwnerOk(t: Tables, f: int)
    requires f in t.owner
  {
    && f != 0
    && match t.owner[f]
       case Free(k) => 0 <= k < |t.free| && t.free[k] == f
       case Dir(n) => n in t.dirs && t.dirs[n] == f
       case Leaf(p) => View(t, p).flags.present && View(t, p).addr == f
       case Held => true
  }

  /** What a walk needs: the tree is in place, and no free frame is part of it. */
  ghost predicate Walkable(t: Tables)
  {
    Tree(t) && forall k {:trigger FreeOk(t, k)} :: 0 <= k < |t.free| ==> FreeOk(t, k)
  }

  /** Besides, every owner is what it is said to be. */
  ghost predicate Framed(t: Tables)
  {
    Walkable(t) && forall f {:trigger OwnerOk(t, f)} :: f in t.owner ==> OwnerOk(t, f)
  }

  /** Besides, a frame of RAM that a present leaf entry maps is owned by it: every frame is free, a directory, mapped
      by one leaf entry or held, and only that. */
  ghost predicate Valid(t: Tables)
  {
    Framed(t) && forall p {:trigger LeafOk(t, p)} :: LeafOk(t, p)
  }

  /** The frames that running code took from the stack and has not mapped yet. */
  ghost function HeldFrames(t: Tables): set<int> { set f | f in t.owner && t.owner[f] == Held }

  // ---------------------------------------------------------------------------------
  // Adding a directory
  // ---------------------------------------------------------------------------------

  function Zeros(): seq<Entry> { seq(512, _ => EMPTY) }

  /** The last free frame becomes the directory of entry i of n. */
  function WithDir(t: Tables, n: Node, i: int, flags: Flags): Tables
    requires n in t.dirs && t.dirs[n] in t.mem && 0 <= i < |t.mem[t.dirs[n]]| && |t.free| > 0
  {
    var f := t.free[|t.free| - 1];
    t.(mem := t.mem[f := Zeros()][t.dirs[n] := t.mem[t.dirs[n]][i := Entry(f, flags)]],
       free := t.free[..|t.free| - 1],
       dirs := t.dirs[Child(n, i) := f],
       owner := t.owner[f := Dir(Child(n, i))])
  }

  /** Directories are only added, and no leaf entry changes. */
  ghost predicate Grows(t: Tables, t': Tables)
  {
    && t'.owner.Keys == t.owner.Keys && t'.slots == t.slots
    && (forall n :: n in t.dirs ==> n in t'.dirs && t'.dirs[n] == t.dirs[n])
  }

  /** Frames changed their owner only from the stack to a directory. */
  ghost predicate OnlyDirsTaken(t: Tables, t': Tables)
  {
    forall f {:trigger t'.owner[f]} :: f in t.owner ==>
      f in t'.owner && (t'.owner[f] == t.owner[f] || (t.owner[f].Free? && t'.owner[f].Dir?))
  }

  ghost predicate SameView(t: Tables, t': Tables)
  {
    forall p :: View(t', p) == View(t, p)
  }

  lemma WithDirTree(t: Tables, n: Node, i: int, flags: Flags)
    requires Walkable(t) && Inner(t, n, i) && Child(n, i) !in t.dirs && |t.free| > 0
    ensures NodeOk(t, n) == true && t.dirs[n] in t.mem && 0 <= i < |t.mem[t.dirs[n]]|
    ensures Tree(WithDir(t, n, i, flags)) == true
  {
    assert NodeOk(t, n) == true && FreeOk(t, |t.free| - 1) == true;
    var t' := WithDir(t, n, i, flags);
    forall m | m in t'.dirs ensures NodeOk(t', m) == true {
      if m in t.dirs { assert NodeOk(t, m) == true; }
    }
    forall m, j | Inner(t', m, j) ensures EntryOk(t', m, j) == true {
      WithDirEntry(t, n, i, flags, m, j);
    }
  }

  lemma WithDirEntry(t: Tables, n: Node, i: int, flags: Flags, m: Node, j: int)
    requires Walkable(t) && Inner(t, n, i) && Child(n, i) !in t.dirs && |t.free| > 0
    requires NodeOk(t, n) && t.dirs[n] in t.mem && 0 <= i < |t.mem[t.dirs[n]]|
    requires Inner(WithDir(t, n, i, flags), m, j)
    ensures EntryOk(WithDir(t, n, i, flags), m, j) == true
  {
    var f := t.free[|t.free| - 1];
    assert FreeOk(t, |t.free| - 1) == true;
    if m in t.dirs {
      assert NodeOk(t, m) == true && EntryOk(t, m, j) == true;
    } else {
      assert Parent(Child(m, j)) == m;
      assert Child(m, j) in t.dirs ==> NodeOk(t, Child(m, j)) == true;
    }
  }

  lemma WithDirView(t: Tables, n: Node, i: int, flags: Flags, p: int)
    requires Walkable(t) && Inner(t, n, i) && Child(n, i) !in t.dirs && |t.free| > 0
    requires NodeOk(t, n) && t.dirs[n] in t.mem && 0 <= i < |t.mem[t.dirs[n]]|
    ensures View(WithDir(t, n, i, flags), p) == View(t, p)
  {
    var x := Node(4, p / 512);
    assert FreeOk(t, |t.free| - 1) == true;
    if x in t.dirs { assert NodeOk(t, x) == true; }
  }

  lemma WithDirWalkable(t: Tables, n: Node, i: int, flags: Flags)
    requires Walkable(t) && Inner(t, n, i) && Child(n, i) !in t.dirs && |t.free| > 0
    ensures t.dirs[n] in t.mem && 0 <= i < |t.mem[t.dirs[n]]|
    ensures Walkable(WithDir(t, n, i, flags)) == true && Grows(t, WithDir(t, n, i, flags)) == true
    ensures SameView(t, WithDir(t, n, i, flags)) == true
    ensures OnlyDirsTaken(t, WithDir(t, n, i, flags)) == true
    ensures HeldFrames(WithDir(t, n, i, flags)) == HeldFrames(t)
  {
    WithDirTree(t, n, i, flags);
    var t' := WithDir(t, n, i, flags);
    assert FreeOk(t, |t.free| - 1) == true;
    forall p ensures View(t', p) == View(t, p) { WithDirView(t, n, i, flags, p); }
    assert t'.owner.Keys == t.owner.Keys;
    forall k | 0 <= k < |t'.free| ensures FreeOk(t', k) == true { assert FreeOk(t, k) == true; }
  }

  lemma WithDirFramed(t: Tables, n: Node, i: int, flags: Flags)
    requires Framed(t) && Inner(t, n, i) && Child(n, i) !in t.dirs && |t.free| > 0
    ensures t.dirs[n] in t.mem && 0 <= i < |t.mem[t.dirs[n]]|
    ensures Framed(WithDir(t, n, i, flags)) == true
  {
    WithDirWalkable(t, n, i, flags);
    var t' := WithDir(t, n, i, flags);
    assert FreeOk(t, |t.free| - 1) == true;
    forall g | g in t'.owner ensures OwnerOk(t', g) == true { assert OwnerOk(t, g) == true; }
  }

  lemma WithDirValid(t: Tables, n: Node, i: int, flags: Flags)
    requires Valid(t) && Inner(t, n, i) && Child(n, i) !in t.dirs && |t.free| > 0
    ensures t.dirs[n] in t.mem && 0 <= i < |t.mem[t.dirs[n]]|
    ensures Valid(WithDir(t, n, i, flags)) == true && SameView(t, WithDir(t, n, i, flags)) == true
    ensures HeldFrames(WithDir(t, n, i, flags)) == HeldFrames(t)
  {
    WithDirFramed(t, n, i, flags);
    WithDirWalkable(t, n, i, flags);
    var f, t' := t.free[|t.free| - 1], WithDir(t, n, i, flags);
    assert FreeOk(t, |t.free| - 1) == true && OwnerOk(t, f) == true;
    forall p ensures LeafOk(t', p) == true { assert LeafOk(t, p) == true; }
  }

  // ---------------------------------------------------------------------------------
  // Writing a leaf entry
  // ---------------------------------------------------------------------------------

  function WithLeaf(t: Tables, p: int, e: Entry): Tables
    requires Node(4, p / 512) in t.dirs && t.dirs[Node(4, p / 512)] in t.mem && |t.mem[t.dirs[Node(4, p / 512)]]| == 512
  {
    var d := t.dirs[Node(4, p / 512)];
    t.(mem := t.mem[d := t.mem[d][p % 512 := e]])
  }

  /** A directory for the leaf entry is there. */
  ghost predicate HasLeaf(t: Tables, p: int)
  {
    Node(4, p / 512) in t.dirs && t.dirs[Node(4, p / 512)] in t.mem && |t.mem[t.dirs[Node(4, p / 512)]]| == 512
  }

  lemma WithLeafView(t: Tables, p: int, e: Entry, q: int)
    requires Tree(t) && HasLeaf(t, p)
    ensures View(WithLeaf(t, p, e), q) == if q == p then e else View(t, q)
  {
    var x := Node(4, q / 512);
    assert NodeOk(t, Node(4, p / 512)) == true;
    if x in t.dirs { assert NodeOk(t, x) == true; }
    assert q == 512 * (q / 512) + q % 512 && p == 512 * (p / 512) + p % 512;
  }

  lemma WithLeafTree(t: Tables, p: int, e: Entry)
    requires Tree(t) && HasLeaf(t, p)
    ensures Tree(WithLeaf(t, p, e)) == true
  {
    var t', x := WithLeaf(t, p, e), Node(4, p / 512);
    assert NodeOk(t, x) == true;
    forall m | m in t'.dirs ensures NodeOk(t', m) == true { assert NodeOk(t, m) == true; }
    forall m, j | Inner(t', m, j) ensures EntryOk(t', m, j) == true {
      assert Inner(t, m, j);
      assert NodeOk(t, m) == true && EntryOk(t, m, j) == true;
    }
  }

  /** The tree does not depend on the stack, or on owners other than directories. */
  lemma TreeFrame(t: Tables, t': Tables)
    requires Tree(t) && t'.mem == t.mem && t'.dirs == t.dirs && t'.slots == t.slots
    requires forall n :: n in t.dirs ==> t.dirs[n] in t'.owner && t'.owner[t.dirs[n]] == Dir(n)
    ensures Tree(t') == true && SameView(t, t') == true
  {
    forall m | m in t'.dirs ensures NodeOk(t', m) == true { assert NodeOk(t, m) == true; }
    forall m, j | Inner(t', m, j) ensures EntryOk(t', m, j) == true {
      assert Inner(t, m, j);
      assert EntryOk(t, m, j) == true;
    }
  }

  /** Where no leaf entry owns anything, leaf entries can be written freely. */
  lemma WithLeafFramed(t: Tables, p: int, e: Entry)
    requires Framed(t) && HasLeaf(t, p) && forall f :: f in t.owner ==> !t.owner[f].Leaf?
    ensures Framed(WithLeaf(t, p, e)) == true && Grows(t, WithLeaf(t, p, e)) == true
  {
    var t' := WithLeaf(t, p, e);
    WithLeafTree(t, p, e);
    forall k | 0 <= k < |t'.free| ensures FreeOk(t', k) == true { assert FreeOk(t, k) == true; }
    forall g | g in t'.owner ensures OwnerOk(t', g) == true { assert OwnerOk(t, g) == true; }
  }

  /** Leaf entries are no concern of walks. */
  lemma WithLeafWalkable(t: Tables, p: int, e: Entry)
    requires Walkable(t) && HasLeaf(t, p)
    ensures Walkable(WithLeaf(t, p, e)) == true && Grows(t, WithLeaf(t, p, e)) == true
    ensures forall q :: View(WithLeaf(t, p, e), q) == if q == p then e else View(t, q)
  {
    var t' := WithLeaf(t, p, e);
    WithLeafTree(t, p, e);
    forall q ensures View(t', q) == if q == p then e else View(t, q) { WithLeafView(t, p, e, q); }
    forall k | 0 <= k < |t'.free| ensures FreeOk(t', k) == true { assert FreeOk(t, k) == true; }
  }

  /** Both entries map the same frame of RAM, or neither maps one. */
  predicate SameRam(keys: set<int>, e: Entry, e': Entry)
  {
    (Owns(keys, e) || Owns(keys, e')) ==> e.flags.present && e'.flags.present && e.addr == e'.addr
  }

  /** Ownership is kept when a leaf entry is replaced by one that maps the same RAM. */
  lemma ReplaceSame(t: Tables, p: int, e: Entry)
    requires Valid(t) && HasLeaf(t, p) && SameRam(t.owner.Keys, View(t, p), e)
    ensures Valid(WithLeaf(t, p, e)) == true
  {
    var t' := WithLeaf(t, p, e);
    WithLeafWalkable(t, p, e);
    forall q ensures LeafOk(t', q) == true { assert LeafOk(t, q) == true; }
    forall g | g in t'.owner ensures OwnerOk(t', g) == true { assert OwnerOk(t, g) == true; }
  }

  /** When only directories were taken from the stack and ownership was kept, every leaf entry maps the RAM it did. */
  lemma KeptMeansSame(t: Tables, t': Tables, p: int)
    requires Valid(t) && Valid(t') && t'.owner.Keys == t.owner.Keys && OnlyDirsTaken(t, t')
    ensures SameRam(t.owner.Keys, View(t, p), View(t', p))
  {
    var f, g := View(t, p).addr, View(t', p).addr;
    assert LeafOk(t, p) == true && LeafOk(t', p) == true;
    if Owns(t.owner.Keys, View(t, p)) { assert t'.owner[f] == Leaf(p); assert OwnerOk(t', f) == true; }
    if Owns(t.owner.Keys, View(t', p)) { assert t.owner[g] == Leaf(p); assert OwnerOk(t, g) == true; }
  }

  /** A held frame is mapped by a leaf entry that mapped no RAM. */
  function Installed(t: Tables, p: int, e: Entry): Tables
    requires Node(4, p / 512) in t.dirs && t.dirs[Node(4, p / 512)] in t.mem && |t.mem[t.dirs[Node(4, p / 512)]]| == 512
  {
    WithLeaf(t, p, e).(owner := t.owner[e.addr := Leaf(p)])
  }

  lemma InstallWalkable(t: Tables, p: int, e: Entry)
    requires Walkable(t) && HasLeaf(t, p) && e.addr in t.owner && t.owner[e.addr] == Held
    ensures Walkable(Installed(t, p, e)) == true && Grows(t, Installed(t, p, e)) == true
    ensures HeldFrames(Installed(t, p, e)) == HeldFrames(t) - {e.addr}
    ensures forall q :: View(Installed(t, p, e), q) == if q == p then e else View(t, q)
  {
    var t1, t' := WithLeaf(t, p, e), Installed(t, p, e);
    WithLeafTree(t, p, e);
    forall n | n in t1.dirs ensures t1.dirs[n] in t'.owner && t'.owner[t1.dirs[n]] == Dir(n) {
      assert NodeOk(t, n) == true;
    }
    TreeFrame(t1, t');
    forall q ensures View(t', q) == if q == p then e else View(t, q) { WithLeafView(t, p, e, q); }
    assert t'.owner.Keys == t.owner.Keys;
    forall k | 0 <= k < |t'.free| ensures FreeOk(t', k) == true { assert FreeOk(t, k) == true; }
  }

  lemma InstallHeld(t: Tables, p: int, e: Entry)
    requires Valid(t) && HasLeaf(t, p) && !Owns(t.owner.Keys, View(t, p))
    requires Owns(t.owner.Keys, e) && t.owner[e.addr] == Held
    ensures Valid(Installed(t, p, e)) == true
  {
    var t' := Installed(t, p, e);
    InstallWalkable(t, p, e);
    forall q ensures LeafOk(t', q) == true { assert LeafOk(t, q) == true; }
    forall g | g in t'.owner ensures OwnerOk(t', g) == true { assert OwnerOk(t, g) == true; }
  }

  /** The frame of a leaf entry goes back to the stack. */
  function Released(t: Tables, p: int, e: Entry): Tables
    requires Node(4, p / 512) in t.dirs && t.dirs[Node(4, p / 512)] in t.mem && |t.mem[t.dirs[Node(4, p / 512)]]| == 512
  {
    var f := View(t, p).addr;
    WithLeaf(t, p, e).(free := t.free + [f], owner := t.owner[f := Free(|t.free|)])
  }

  lemma ReleaseLeaf(t: Tables, p: int, e: Entry)
    requires Valid(t) && HasLeaf(t, p) && Owns(t.owner.Keys, View(t, p)) && !e.flags.present
    ensures Valid(Released(t, p, e)) == true && Grows(t, Released(t, p, e)) == true
    ensures HeldFrames(Released(t, p, e)) == HeldFrames(t)
    ensures forall q :: View(Released(t, p, e), q) == if q == p then e else View(t, q)
  {
    var t1, t', f := WithLeaf(t, p, e), Released(t, p, e), View(t, p).addr;
    WithLeafTree(t, p, e);
    assert LeafOk(t, p) == true && OwnerOk(t, f) == true;
    forall n | n in t1.dirs ensures t1.dirs[n] in t'.owner && t'.owner[t1.dirs[n]] == Dir(n) {
      assert NodeOk(t, n) == true;
    }
    TreeFrame(t1, t');
    forall q ensures View(t', q) == if q == p then e else View(t, q) { WithLeafView(t, p, e, q); }
    assert t'.owner.Keys == t.owner.Keys;
    forall q ensures LeafOk(t', q) == true { assert LeafOk(t, q) == true; }
    forall k | 0 <= k < |t'.free| ensures FreeOk(t', k) == true { if k < |t.free| { assert FreeOk(t, k) == true; } }
    forall g | g in t'.owner ensures OwnerOk(t', g) == true { assert OwnerOk(t, g) == true; }
  }

  /** Mapping a held frame keeps the ownership exactly if the entry did not map RAM before: else that frame is lost. */
  lemma InstallExact(t: Tables, p: int, e: Entry)
    requires Valid(t) && HasLeaf(t, p) && Owns(t.owner.Keys, e) && t.owner[e.addr] == Held
    ensures Valid(Installed(t, p, e)) <==> !Owns(t.owner.Keys, View(t, p))
  {
    var t', f := Installed(t, p, e), View(t, p).addr;
    if Owns(t.owner.Keys, View(t, p)) {
      assert LeafOk(t, p) == true;
      WithLeafView(t, p, e, p);
      assert View(t', p) == e;
      assert !OwnerOk(t', f);
    } else {
      InstallHeld(t, p, e);
    }
  }

  ghost predicate IsFree(t: Tables, f: int) { f in t.free }

  ghost predicate IsDirectory(t: Tables, f: int) { exists n :: n in t.dirs && t.dirs[n] == f }

  ghost predicate MappedBy(t: Tables, p: int, f: int) { View(t, p).flags.present && View(t, p).addr == f }

  ghost predicate IsMapped(t: Tables, f: int) { exists p :: MappedBy(t, p, f) }

  /** When no code holds a frame, every frame of RAM is free, a directory or mapped: one of these, and once. */
  lemma OneOwner(t: Tables, f: int)
    requires Valid(t) && HeldFrames(t) == {} && f in t.owner
    ensures IsFree(t, f) || IsDirectory(t, f) || IsMapped(t, f)
    ensures !(IsFree(t, f) && IsDirectory(t, f)) && !(IsFree(t, f) && IsMapped(t, f))
    ensures !(IsDirectory(t, f) && IsMapped(t, f))
    ensures forall k, l :: 0 <= k < |t.free| && 0 <= l < |t.free| && t.free[k] == f && t.free[l] == f ==> k == l
    ensures forall n, m :: n in t.dirs && m in t.dirs && t.dirs[n] == f && t.dirs[m] == f ==> n == m
    ensures forall p, q :: MappedBy(t, p, f) && MappedBy(t, q, f) ==> p == q
  {
    assert OwnerOk(t, f) == true && f !in HeldFrames(t);
    forall k | 0 <= k < |t.free| && t.free[k] == f ensures t.owner[f] == Free(k) { assert FreeOk(t, k) == true; }
    forall n | n in t.dirs && t.dirs[n] == f ensures t.owner[f] == Dir(n) { assert NodeOk(t, n) == true; }
    assert t.owner[f].Leaf? ==> MappedBy(t, t.owner[f].page, f);
    forall p | MappedBy(t, p, f) ensures t.owner[f] == Leaf(p) {
      assert LeafOk(t, p) == true;
    }
  }

  // ---------------------------------------------------------------------------------
  // Taking a frame from the stack
  // ---------------------------------------------------------------------------------

  function Popped(t: Tables): Tables
    requires |t.free| > 0
  {
    t.(free := t.free[..|t.free| - 1], owner := t.owner[t.free[|t.free| - 1] := Held])
  }

  lemma PopWalkable(t: Tables)
    requires Walkable(t) && |t.free| > 0
    ensures Walkable(Popped(t)) == true && Grows(t, Popped(t)) == true && SameView(t, Popped(t)) == true
    ensures HeldFrames(Popped(t)) == HeldFrames(t) + {t.free[|t.free| - 1]}
    ensures var f := t.free[|t.free| - 1]; f != 0 && f in t.owner && t.owner[f] == Free(|t.free| - 1)
  {
    var t' := Popped(t);
    assert FreeOk(t, |t.free| - 1) == true;
    forall n | n in t.dirs ensures t.dirs[n] in t'.owner && t'.owner[t.dirs[n]] == Dir(n) {
      assert NodeOk(t, n) == true;
    }
    TreeFrame(t, t');
    assert t'.owner.Keys == t.owner.Keys;
    forall k | 0 <= k < |t'.free| ensures FreeOk(t', k) == true { assert FreeOk(t, k) == true; }
  }

  lemma PopFramed(t: Tables)
    requires Framed(t) && |t.free| > 0
    ensures Framed(Popped(t)) == true
  {
    var t' := Popped(t);
    PopWalkable(t);
    forall g | g in t'.owner ensures OwnerOk(t', g) == true { assert OwnerOk(t, g) == true; }
  }

  lemma PopHeld(t: Tables)
    requires Valid(t) && |t.free| > 0
    ensures Valid(Popped(t)) == true
  {
    PopWalkable(t);
    PopFramed(t);
    forall q ensures LeafOk(Popped(t), q) == true { assert LeafOk(t, q) == true; }
  }

  // ---------------------------------------------------------------------------------
  // Frames that come from elsewhere
  // ---------------------------------------------------------------------------------

  /** The tables after a frame was put on the stack. */
  function Pushed(t: Tables, f: int): Tables { t.(free := t.free + [f], owner := t.owner[f := Free(|t.free|)]) }

  /** n frames from address f on are on the stack, above what was there. */
  ghost predicate PushedRun(t: Tables, t': Tables, f: int, n: nat)
  {
    && t'.mem == t.mem && t'.dirs == t.dirs && t'.slots == t.slots
    && |t'.free| == |t.free| + n && t'.free[..|t.free|] == t.free
    && (forall k {:trigger t'.free[k]} :: |t.free| <= k < |t'.free| ==> t'.free[k] == f + 4096 * (k - |t.free|))
    && (forall g {:trigger g in t'.owner} :: g in t'.owner <==> g in t.owner || InFrames(f, n, g))
    && (forall g {:trigger t'.owner[g]} :: g in t'.owner ==>
          t'.owner[g] == if InFrames(f, n, g) then Free(|t.free| + (g - f) / 4096) else t.owner[g])
  }

  predicate InFrames(f: int, n: nat, g: int) { f <= g < f + 4096 * n && (g - f) % 4096 == 0 }

  lemma PushedNext(t: Tables, t1: Tables, f: int, n: nat)
    requires PushedRun(t, t1, f, n)
    ensures PushedRun(t, Pushed(t1, f + 4096 * n), f, n + 1) == true
  {
    var t', e := Pushed(t1, f + 4096 * n), f + 4096 * n;
    FrameAt(f, n + 1, n);
    forall g ensures InFrames(f, n + 1, g) <==> InFrames(f, n, g) || g == e { NextFrame(f, n, g); }
    assert t'.free[..|t.free|] == t1.free[..|t.free|];
  }

  lemma FrameAt(f: int, n: nat, i: nat)
    requires i < n
    ensures InFrames(f, n, f + 4096 * i) && (f + 4096 * i - f) / 4096 == i
  {
  }

  lemma NextFrame(f: int, n: nat, g: int)
    ensures InFrames(f, n + 1, g) <==> InFrames(f, n, g) || g == f + 4096 * n
  {
    if InFrames(f, n + 1, g) { assert g - f == 4096 * ((g - f) / 4096); }
  }

  /** Nobody owns the frame, and no leaf entry maps it. */
  ghost predicate Unowned(t: Tables, f: int) { f != 0 && f !in t.owner && !IsMapped(t, f) }

  ghost predicate AllUnowned(t: Tables, f: int, n: nat)
  {
    forall g {:trigger InFrames(f, n, g)} :: InFrames(f, n, g) ==> Unowned(t, g)
  }

  /** Every frame has one owner afterwards if and only if the frames had none before. */
  lemma PushedExact(t: Tables, t': Tables, f: int, n: nat)
    requires Valid(t) && HeldFrames(t) == {} && PushedRun(t, t', f, n)
    ensures Valid(t') <==> AllUnowned(t, f, n)
    ensures HeldFrames(t') == {} && SameView(t, t')
  {
    forall p ensures View(t', p) == View(t, p) {}
    if AllUnowned(t, f, n) {
      PushedKeeps(t, t', f, n);
    } else if Valid(t') {
      var g :| InFrames(f, n, g) && !Unowned(t, g);
      PushedTwice(t, t', f, n, g);
    }
    forall g | g in t'.owner ensures t'.owner[g] != Held { assert g in t.owner ==> g !in HeldFrames(t); }
  }

  lemma PushedKeeps(t: Tables, t': Tables, f: int, n: nat)
    requires Valid(t) && PushedRun(t, t', f, n) && AllUnowned(t, f, n)
    ensures Valid(t') == true
  {
    forall m | m in t.dirs ensures t.dirs[m] in t'.owner && t'.owner[t.dirs[m]] == Dir(m) {
      assert NodeOk(t, m) == true;
    }
    TreeFrame(t, t');
    forall k | 0 <= k < |t'.free| ensures FreeOk(t', k) == true {
      if k < |t.free| {
        assert FreeOk(t, k) == true && t'.free[k] == t'.free[..|t.free|][k];
      } else {
        FrameAt(f, n, k - |t.free|);
      }
    }
    forall g | g in t'.owner ensures OwnerOk(t', g) == true { PushedOwner(t, t', f, n, g); }
    forall p ensures LeafOk(t', p) == true {
      assert LeafOk(t, p) == true && View(t', p) == View(t, p);
      assert MappedBy(t, p, View(t, p).addr) <==> View(t, p).flags.present;
    }
  }

  lemma PushedOwner(t: Tables, t': Tables, f: int, n: nat, g: int)
    requires Valid(t) && PushedRun(t, t', f, n) && AllUnowned(t, f, n) && g in t'.owner
    ensures OwnerOk(t', g) == true
  {
    if InFrames(f, n, g) {
      var i := (g - f) / 4096;
      assert g == f + 4096 * i && t'.free[|t.free| + i] == f + 4096 * i;
    } else {
      assert OwnerOk(t, g) == true && View(t', 0) == View(t, 0);
      if t.owner[g].Free? { assert t'.free[..|t.free|][t.owner[g].k] == g; }
      if t.owner[g].Leaf? { assert View(t', t.owner[g].page) == View(t, t.owner[g].page); }
    }
  }

  /** A frame that somebody owns, or a leaf entry maps, then has two owners. */
  lemma PushedTwice(t: Tables, t': Tables, f: int, n: nat, g: int)
    requires Valid(t) && HeldFrames(t) == {} && PushedRun(t, t', f, n) && InFrames(f, n, g) && !Unowned(t, g)
    ensures !Valid(t')
  {
    var i := (g - f) / 4096;
    assert g == f + 4096 * i && t'.free[|t.free| + i] == g && t'.owner[g].Free?;
    if g == 0 {
      assert !FreeOk(t', |t.free| + i);
    } else if IsMapped(t, g) {
      var p :| MappedBy(t, p, g);
      assert View(t', p) == View(t, p) && !LeafOk(t', p);
    } else {
      assert OwnerOk(t, g) == true && g !in HeldFrames(t);
      match t.owner[g]
      case Free(k) => assert t'.free[..|t.free|][k] == g && !FreeOk(t', k);
      case Dir(m) => assert !NodeOk(t', m);
      case Leaf(p) => assert MappedBy(t, p, g);
    }
  }

  // ---------------------------------------------------------------------------------
  // Frames that walks take
  // ---------------------------------------------------------------------------------

  /** The first page of a directory. */
  function Base(n: Node): int
  {
    if n.level == 1 then n.index * 0x10_0000_0000
    else if n.level == 2 then n.index * 0x800_0000
    else if n.level == 3 then n.index * 0x4_0000
    else n.index * 0x200
  }

  /** The directory is below the given level and has one of pages a to b. */
  ghost predicate Below(n: Node, level: int, a: int, b: int)
  {
    level < n.level <= 4 && a <= b && Base(n) <= b && a < Base(n) + Size(n.level - 1)
  }

  /** All directories below the level that pages a to b need are there. */
  ghost predicate AllBelow(t: Tables, level: int, a: int, b: int)
  {
    forall n {:trigger Below(n, level, a, b)} :: Below(n, level, a, b) ==> n in t.dirs
  }

  /** The directories of t' are those of t and some that pages a to b need. */
  ghost predicate DirsFor(t: Tables, t': Tables, level: int, a: int, b: int)
  {
    && (forall n :: n in t.dirs ==> n in t'.dirs)
    && (forall n {:trigger n in t'.dirs} :: n in t'.dirs ==> n in t.dirs || Below(n, level, a, b))
  }

  /** A walk below the level adds such directories, and succeeds if it gets all of them. */
  ghost predicate Walked(t: Tables, t': Tables, level: int, a: int, b: int, ok: bool)
  {
    DirsFor(t, t', level, a, b) && (ok <==> AllBelow(t', level, a, b))
  }

  /** The frames on the stack and those of directories. */
  ghost function Frames(t: Tables): int { |t.free| + |t.dirs| }

  lemma BelowJoin(n: Node, level: int, a: int, b: int, c: int)
    requires 1 <= level && a <= b + 1 && b <= c
    ensures Below(n, level, a, c) <==> Below(n, level, a, b) || Below(n, level, b + 1, c)
  {
  }

  lemma WalkedNone(t: Tables, level: int, a: int)
    ensures Walked(t, t, level, a, a - 1, true) == true
  {
  }

  lemma WalkedJoin(t: Tables, t1: Tables, t2: Tables, level: int, a: int, b: int, c: int, ok: bool)
    requires 1 <= level && a <= b + 1 && b <= c
    requires Walked(t, t1, level, a, b, true) == true && Walked(t1, t2, level, b + 1, c, ok) == true
    ensures Walked(t, t2, level, a, c, ok) == true
  {
    forall n | n in t2.dirs && n !in t.dirs ensures Below(n, level, a, c) == true { BelowJoin(n, level, a, b, c); }
    if ok {
      forall n | Below(n, level, a, c) ensures n in t2.dirs { BelowJoin(n, level, a, b, c); }
    } else {
      var m :| Below(m, level, b + 1, c) && m !in t2.dirs;
      BelowJoin(m, level, a, b, c);
    }
  }

  lemma WalkedShort(t: Tables, t1: Tables, level: int, a: int, b: int, c: int)
    requires 1 <= level && a <= b + 1 && b <= c && Walked(t, t1, level, a, b, false) == true
    ensures Walked(t, t1, level, a, c, false) == true
  {
    var m :| Below(m, level, a, b) && m !in t1.dirs;
    BelowJoin(m, level, a, b, c);
    forall n | n in t1.dirs && n !in t.dirs ensures Below(n, level, a, c) == true { BelowJoin(n, level, a, b, c); }
  }

  /** Of the next level, pages within one directory need just that. */
  lemma BelowChild(n: Node, i: int, a: int, b: int, m: Node)
    requires 1 <= n.level < 4 && Base(Child(n, i)) <= a <= b < Base(Child(n, i)) + Size(n.level)
    ensures Below(m, n.level, a, b) <==> m == Child(n, i) || Below(m, n.level + 1, a, b)
  {
  }

  lemma WalkedChild(t: Tables, t1: Tables, t2: Tables, n: Node, i: int, a: int, b: int, ok: bool)
    requires 1 <= n.level < 4 && Base(Child(n, i)) <= a <= b < Base(Child(n, i)) + Size(n.level)
    requires (forall m :: m in t.dirs ==> m in t1.dirs) && Child(n, i) in t1.dirs
    requires forall m :: m in t1.dirs ==> m in t.dirs || m == Child(n, i)
    requires Walked(t1, t2, n.level + 1, a, b, ok) == true
    ensures Walked(t, t2, n.level, a, b, ok) == true
  {
    forall m | m in t2.dirs && m !in t.dirs ensures Below(m, n.level, a, b) == true { BelowChild(n, i, a, b, m); }
    if ok {
      forall m | Below(m, n.level, a, b) ensures m in t2.dirs { BelowChild(n, i, a, b, m); }
    } else {
      var m :| Below(m, n.level + 1, a, b) && m !in t2.dirs;
      BelowChild(n, i, a, b, m);
    }
  }

  lemma WalkedStuck(t: Tables, n: Node, i: int, a: int, b: int)
    requires 1 <= n.level < 4 && Base(Child(n, i)) <= a <= b < Base(Child(n, i)) + Size(n.level)
    requires Child(n, i) !in t.dirs
    ensures Walked(t, t, n.level, a, b, false) == true
  {
    BelowChild(n, i, a, b, Child(n, i));
    assert Below(Child(n, i), n.level, a, b) == true;
  }

  /** All directories below the root that pages a to b need. */
  ghost function Needed(a: int, b: int): set<Node>
  {
    set level, q | 2 <= level <= 4 && 0 <= q <= b && Below(Node(level, q), 1, a, b) :: Node(level, q)
  }

  lemma NeededIsBelow(n: Node, a: nat, b: int)
    ensures n in Needed(a, b) <==> Below(n, 1, a, b)
  {
    if Below(n, 1, a, b) { assert n == Node(n.level, n.index) && 0 <= n.index <= b; }
  }

  /** How many of them are missing. */
  ghost function Missing(t: Tables, a: int, b: int): nat { |(set n | n in Needed(a, b) && n !in t.dirs)| }

  lemma MissingCount(t: Tables, a: int, b: int)
    ensures Missing(t, a, b) == |Needed(a, b) - t.dirs.Keys|
  {
    assert Needed(a, b) - t.dirs.Keys == set n | n in Needed(a, b) && n !in t.dirs;
  }

  /** A set between k and k + d misses none of d exactly if it has as many members as k + d. */
  lemma Between(k: set<Node>, d: set<Node>, x: set<Node>)
    requires k <= x <= k + d
    ensures |x| <= |k| + |d - k|
    ensures |x| == |k| + |d - k| <==> d <= x
  {
    var all := k + (d - k);
    assert all == x + (all - x);
    if d <= x { assert all - x == {}; }
  }

  /** A walk takes at most that many frames for directories, and exactly that many if it gets all it needs. */
  lemma DirsTaken(t: Tables, t': Tables, a: nat, b: int)
    requires DirsFor(t, t', 1, a, b)
    ensures |t'.dirs| <= |t.dirs| + Missing(t, a, b)
    ensures |t'.dirs| == |t.dirs| + Missing(t, a, b) <==> AllBelow(t', 1, a, b)
  {
    forall n ensures n in Needed(a, b) <==> Below(n, 1, a, b) { NeededIsBelow(n, a, b); }
    assert |t'.dirs| == |t'.dirs.Keys| && |t.dirs| == |t.dirs.Keys|;
    assert Needed(a, b) <= t'.dirs.Keys <==> AllBelow(t', 1, a, b);
    MissingCount(t, a, b);
    Between(t.dirs.Keys, Needed(a, b), t'.dirs.Keys);
  }

  /** So a walk that can only fail for want of frames fails exactly if there are fewer. */
  lemma WalkExact(t: Tables, t': Tables, a: nat, b: int, ok: bool)
    requires Walked(t, t', 1, a, b, ok) && Frames(t') == Frames(t) && (!ok ==> t'.free == [])
    ensures ok <==> Missing(t, a, b) <= |t.free|
    ensures ok ==> |t'.free| == |t.free| - Missing(t, a, b)
  {
    DirsTaken(t, t', a, b);
  }

  lemma NeededNext(a: nat, b: int)
    requires a <= b
    ensures Needed(a, b) <= Needed(a, b - 1) + {Node(2, b / 0x800_0000), Node(3, b / 0x4_0000), Node(4, b / 0x200)}
  {
    forall n | n in Needed(a, b) && n !in Needed(a, b - 1)
      ensures n in {Node(2, b / 0x800_0000), Node(3, b / 0x4_0000), Node(4, b / 0x200)}
    {
      NeededIsBelow(n, a, b);
      NeededIsBelow(n, a, b - 1);
      NodeAt(n, b);
    }
  }

  lemma NodeAt(n: Node, p: nat)
    requires 2 <= n.level <= 4 && Base(n) <= p < Base(n) + Size(n.level - 1)
    ensures n == Node(n.level, p / Size(n.level - 1))
  {
  }

  lemma {:induction false} NeededCount(a: nat, b: int)
    requires a <= b + 1
    ensures |Needed(a, b)| <= 3 * (b - a + 1)
    decreases b - a
  {
    if b < a {
      assert Needed(a, b) == {};
    } else {
      NeededCount(a, b - 1);
      NeededNext(a, b);
      var last := {Node(2, b / 0x800_0000), Node(3, b / 0x4_0000), Node(4, b / 0x200)};
      SmallerSet(Needed(a, b), Needed(a, b - 1) + last);
    }
  }

  lemma SmallerSet(x: set<Node>, y: set<Node>)
    requires x <= y
    ensures |x| <= |y|
  {
    assert y == x + (y - x);
  }

  /** Never more than three per page. */
  lemma MissingBound(t: Tables, a: nat, b: int)
    requires a <= b
    ensures Missing(t, a, b) <= 3 * (b - a + 1)
  {
    NeededCount(a, b);
    SmallerSet((set n | n in Needed(a, b) && n !in t.dirs), Needed(a, b));
  }

  // ---------------------------------------------------------------------------------
  // Taking tables over
  // ---------------------------------------------------------------------------------

  /** No frame is the place of two directories, on the stack twice, or both, and frame 0 is not on the stack. */
  ghost predicate FramesDiffer(dirs: map<Node, int>, free: seq<int>)
  {
    && (forall n, m :: n in dirs && m in dirs && dirs[n] == dirs[m] ==> n == m)
    && (forall i, j :: 0 <= i < |free| && 0 <= j < |free| && free[i] == free[j] ==> i == j)
    && (forall n, k :: n in dirs && 0 <= k < |free| ==> dirs[n] != free[k])
    && 0 !in free
  }

  /** Tables that were built by someone else, with a stack of free frames; RAM is what is in either. */
  ghost function FirstTables(mem: map<int, seq<Entry>>, free: seq<int>, dirs: map<Node, int>, slots: set<int>): Tables
    requires FramesDiffer(dirs, free)
  {
    var owner := (map n | n in dirs :: dirs[n] := Dir(n)) + (map k | 0 <= k < |free| :: free[k] := Owner.Free(k));
    Tables(mem, free, dirs, owner, slots)
  }

  /** They form a tree, and no leaf entry maps a directory or a free frame. */
  ghost predicate HandedOver(mem: map<int, seq<Entry>>, free: seq<int>, dirs: map<Node, int>, slots: set<int>)
  {
    && FramesDiffer(dirs, free) && Tree(FirstTables(mem, free, dirs, slots))
    && forall p {:trigger View(FirstTables(mem, free, dirs, slots), p)} ::
         var t := FirstTables(mem, free, dirs, slots); !Owns(t.owner.Keys, View(t, p))
  }

  lemma FirstValid(mem: map<int, seq<Entry>>, free: seq<int>, dirs: map<Node, int>, slots: set<int>)
    requires HandedOver(mem, free, dirs, slots)
    ensures Valid(FirstTables(mem, free, dirs, slots)) && HeldFrames(FirstTables(mem, free, dirs, slots)) == {}
  {
    var t := FirstTables(mem, free, dirs, slots);
    forall k | 0 <= k < |free| ensures FreeOk(t, k) == true {}
    forall f | f in t.owner ensures OwnerOk(t, f) == true && t.owner[f] != Held {
      if f !in free {
        var n :| n in dirs && dirs[n] == f;
        assert NodeOk(t, n) == true;
      }
    }
    forall p ensures LeafOk(t, p) == true { var v := View(t, p); }
  }

  /** The least there is: a root directory, empty in its slots, and free frames. */
  lemma RootHandedOver(mem: map<int, seq<Entry>>, root: int, free: seq<int>, slots: set<int>)
    requires root in mem && |mem[root]| == 512 && root != 0 && FramesDiffer(map[Node(1, 0) := root], free)
    requires forall i :: i in slots ==> 0 <= i < 512 && mem[root][i] == EMPTY
    ensures HandedOver(mem, free, map[Node(1, 0) := root], slots)
  {
    var t := FirstTables(mem, free, map[Node(1, 0) := root], slots);
    forall n | n in t.dirs ensures NodeOk(t, n) == true {}
    forall n, i | Inner(t, n, i) ensures EntryOk(t, n, i) == true {}
  }

  // ---------------------------------------------------------------------------------
  // The walk the processor does
  // ---------------------------------------------------------------------------------

  /** Follows the entries of memory from directory f of the given level to the leaf entry of a page. */
  function Walk(mem: map<int, seq<Entry>>, f: int, level: int, p: nat): Entry
    requires 1 <= level <= 4
    decreases 4 - level
  {
    if f !in mem || |mem[f]| != 512 then EMPTY
    else
      var e := mem[f][p / Size(level) % 512];
      if level == 4 || e == EMPTY then e else Walk(mem, e.addr, level + 1, p)
  }

  lemma WalkStep(t: Tables, level: int, p: nat)
    requires Tree(t) && 1 <= level < 4 && Node(level, p / Size(level) / 512) in t.dirs
    requires (level == 1 ==> p / Size(1) in t.slots)
    ensures var n, c := Node(level, p / Size(level) / 512), Node(level + 1, p / Size(level));
            Walk(t.mem, t.dirs[n], level, p) == if c in t.dirs then Walk(t.mem, t.dirs[c], level + 1, p) else EMPTY
  {
    var n := Node(level, p / Size(level) / 512);
    var i := p / Size(level) % 512;
    assert NodeOk(t, n) == true;
    assert Inner(t, n, i);
    assert EntryOk(t, n, i) == true;
    assert Child(n, i) == Node(level + 1, p / Size(level));
    if Child(n, i) in t.dirs { assert NodeOk(t, Child(n, i)) == true; }
  }

  lemma Nested(p: nat)
    ensures p / 512 / 512 == p / 0x4_0000 && p / 0x4_0000 / 512 == p / 0x800_0000
    ensures p < 0x10_0000_0000 ==> p / 0x800_0000 / 512 == 0
  {
  }

  /** It finds exactly the leaf entries of the tree. */
  lemma WalkIsView(t: Tables, p: nat)
    requires Tree(t) && p < 0x10_0000_0000 && p / Size(1) in t.slots
    ensures Node(1, 0) in t.dirs && Walk(t.mem, t.dirs[Node(1, 0)], 1, p) == View(t, p)
  {
    Nested(p);
    WalkStep(t, 1, p);
    var x := Node(4, p / 512);
    if x in t.dirs {
      assert NodeOk(t, x) == true && NodeOk(t, Parent(x)) == true && NodeOk(t, Parent(Parent(x))) == true;
    }
    if Node(2, p / Size(1)) in t.dirs {
      WalkStep(t, 2, p);
      if Node(3, p / Size(2)) in t.dirs { WalkStep(t, 3, p); }
    }
  }

  // The path to one page

  lemma DirsAbove(t: Tables, p: nat)
    requires Tree(t) && Node(4, p / 512) in t.dirs
    ensures Node(3, p / 0x4_0000) in t.dirs && Node(2, p / 0x800_0000) in t.dirs
  {
    Nested(p);
    assert NodeOk(t, Node(4, p / 512)) == true;
    assert NodeOk(t, Node(3, p / 0x4_0000)) == true;
  }

  /** The directories down to the given level that page p needs were added if they were not there. */
  ghost predicate PathTo(t: Tables, t': Tables, level: int, p: int)
  {
    && DirsFor(t, t', 1, p, p)
    && forall n {:trigger Below(n, 1, p, p)} :: Below(n, 1, p, p) && n.level <= level ==> n in t'.dirs
  }

  lemma PathNode(n: Node, p: nat)
    requires 2 <= n.level <= 4
    ensures Below(n, 1, p, p) <==> n == Node(n.level, p / Size(n.level - 1))
  {
  }

  lemma PathNext(t: Tables, t1: Tables, t2: Tables, level: int, p: nat, ok: bool)
    requires 1 <= level < 4 && PathTo(t, t1, level, p) == true
    requires if ok then t2.dirs.Keys == t1.dirs.Keys + {Node(level + 1, p / Size(level))}
             else t2 == t1 && Node(level + 1, p / Size(level)) !in t1.dirs
    ensures ok ==> PathTo(t, t2, level + 1, p) == true
    ensures !ok ==> Walked(t, t2, 1, p, p, false) == true
  {
    var m := Node(level + 1, p / Size(level));
    PathNode(m, p);
    if ok {
      forall n | Below(n, 1, p, p) && n.level <= level + 1 ensures n in t2.dirs { PathNode(n, p); }
    } else {
      assert Below(m, 1, p, p) == true;
    }
  }

  lemma PathFirst(t: Tables, t1: Tables, p: nat, ok: bool)
    requires if ok then t1.dirs.Keys == t.dirs.Keys + {Node(2, p / Size(1))}
             else t1 == t && Node(2, p / Size(1)) !in t.dirs
    ensures ok ==> PathTo(t, t1, 2, p) == true
    ensures !ok ==> Walked(t, t1, 1, p, p, false) == true
  {
    assert PathTo(t, t, 1, p) == true;
    PathNext(t, t, t1, 1, p, ok);
  }

  lemma PathWhole(t: Tables, t': Tables, p: int)
    requires PathTo(t, t', 4, p) == true
    ensures Walked(t, t', 1, p, p, true) == true
  {
  }

  /** A page whose leaf directory is there needs no other. */
  lemma PathThere(t: Tables, p: nat)
    requires Tree(t) && Node(4, p / 512) in t.dirs
    ensures Walked(t, t, 1, p, p, true) == true
  {
    DirsAbove(t, p);
    forall n | Below(n, 1, p, p) ensures n in t.dirs { PathNode(n, p); }
  }
}
