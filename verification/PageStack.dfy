/** The lock-free stack of free RAM pages of kernel/phmem.cpp.

    A free page holds the address of the next free page in its first word; the header is a
    (head, counter) pair that is loaded word by word and exchanged as a whole. Every load,
    store and exchange is one step of one thread, and the owner of an allocated page may
    overwrite it at any time, also while another thread still reads it through a stale head. */
module PageStack {

  type Tid = nat

  const RAM_VIRTUAL_BASE := 0xFFFF_8000_0000_0000

  /** `m_pEndList`: the end marker is not the address of a page. */
  const END := 0

  /** Where a thread is inside `allocPagePtr` or `freePagePtr`: `h` and `g` are the loaded
      `header.m_head` and `header.m_refCnt`, `n` the word read through `h`. */
  datatype PC =
    | Idle
    | AllocHead(zero: bool)
    | AllocTag(zero: bool, h: nat)
    | AllocNext(zero: bool, h: nat, g: nat)
    | AllocCas(zero: bool, h: nat, g: nat, n: nat)
    | AllocZero(p: nat)
    | Allocated(p: nat)
    | Panicked
    | FreeHead(p: nat)
    | FreeTag(p: nat, h: nat)
    | FreeLink(p: nat, h: nat, g: nat)
    | FreeCas(p: nat, h: nat, g: nat)

  /** Whose a page is: the stack's (at a position counted from the bottom), its client's, or
      a thread's that is inside a call. */
  datatype Owner = OnStack(i: nat) | Client | Held(t: Tid)

  /** `words` is the first word of every page. `free` and `owner` are history: the free pages
      from the bottom of the stack to its top, and the owner of each page. */
  datatype Stack = Stack(
    words: map<nat, nat>,
    head: nat,
    refCnt: nat,
    pc: map<Tid, PC>,
    free: seq<nat>,
    owner: map<nat, Owner>)

  datatype Action =
    | StartAlloc(t: Tid, zero: bool)
    | StartFree(t: Tid, p: nat)
    | ClientWrite(p: nat, v: nat)
    | Advance(t: Tid)

  predicate AtRest(s: Stack, t: Tid)
  {
    t !in s.pc || s.pc[t].Idle? || s.pc[t].Allocated?
  }

  /** One step; an action whose thread or page is not in the right place does nothing. */
  function Step(s: Stack, a: Action): (s': Stack)
  {
    match a
    case StartAlloc(t, zero) =>
      if AtRest(s, t) then s.(pc := s.pc[t := AllocHead(zero)]) else s
    case StartFree(t, p) =>
      if AtRest(s, t) && p in s.owner && s.owner[p] == Client then
        s.(pc := s.pc[t := FreeHead(p)], owner := s.owner[p := Held(t)])
      else s
    case ClientWrite(p, v) =>
      if p in s.owner && s.owner[p] == Client then s.(words := s.words[p := v]) else s
    case Advance(t) =>
      if t in s.pc then AdvanceThread(s, t) else s
  }

  function AdvanceThread(s: Stack, t: Tid): (s': Stack)
    requires t in s.pc
  {
    match s.pc[t]
    case AllocHead(zero) => s.(pc := s.pc[t := AllocTag(zero, s.head)])
    case AllocTag(zero, h) => s.(pc := s.pc[t := if h == END then Panicked else AllocNext(zero, h, s.refCnt)])
    case AllocNext(zero, h, g) =>
      if h in s.words then s.(pc := s.pc[t := AllocCas(zero, h, g, s.words[h])]) else s
    case AllocCas(zero, h, g, n) =>
      if s.head == h && s.refCnt == g then
        s.(head := n, refCnt := g + 1,
           free := if s.free == [] then [] else s.free[..|s.free| - 1],
           owner := s.owner[h := if zero then Held(t) else Client],
           pc := s.pc[t := if zero then AllocZero(h) else Allocated(h)])
      else
        s.(pc := s.pc[t := AllocHead(zero)])
    case AllocZero(p) =>
      s.(words := s.words[p := 0], owner := s.owner[p := Client], pc := s.pc[t := Allocated(p)])
    case FreeHead(p) => s.(pc := s.pc[t := FreeTag(p, s.head)])
    case FreeTag(p, h) => s.(pc := s.pc[t := FreeLink(p, h, s.refCnt)])
    case FreeLink(p, h, g) => s.(words := s.words[p := h], pc := s.pc[t := FreeCas(p, h, g)])
    case FreeCas(p, h, g) =>
      if s.head == h && s.refCnt == g then
        s.(head := p, refCnt := g + 1, free := s.free + [p], owner := s.owner[p := OnStack(|s.free|)],
           pc := s.pc[t := Idle])
      else
        s.(pc := s.pc[t := FreeHead(p)])
    case _ => s
  }

  function Exec(s: Stack, run: seq<Action>): (s': Stack)
    decreases |run|
  {
    if run == [] then s else Step(Exec(s, run[..|run| - 1]), run[|run| - 1])
  }

  // ---------------------------------------------------------------------------------
  // The invariant
  // ---------------------------------------------------------------------------------

  /** The address of the topmost page of a list of pages given from the bottom up. */
  function Top(list: seq<nat>): nat
  {
    if list == [] then END else list[|list| - 1]
  }

  /** The page at position i of a list holds the address of the page below it. */
  ghost predicate LinkAt(words: map<nat, nat>, list: seq<nat>, i: nat)
    requires i < |list|
  {
    list[i] in words && words[list[i]] == if i == 0 then END else list[i - 1]
  }

  const NO_PAGE := -1

  /** The page a thread holds inside a call. */
  function PageOf(pc: PC): int
  {
    match pc
    case AllocZero(p) => p
    case FreeHead(p) => p
    case FreeTag(p, _) => p
    case FreeLink(p, _, _) => p
    case FreeCas(p, _, _) => p
    case _ => NO_PAGE
  }

  /** What a thread has read and may still rely on. An exchange compares the counter, and as
      long as the counter stands, the word below the top page stands. */
  ghost predicate ViewOk(s: Stack, pc: PC)
  {
    match pc
    case AllocTag(_, h) => h == END || h in s.owner
    case AllocNext(_, h, g) => h != END && h in s.owner && g <= s.refCnt
    case AllocCas(_, h, g, n) =>
      && h != END && h in s.owner && g <= s.refCnt
      && (h == s.head && g == s.refCnt ==> h in s.words && n == s.words[h])
    case FreeCas(p, h, g) => p in s.words && s.words[p] == h
    case _ => true
  }

  /** The page at position i of the stack is linked to the page below it. */
  ghost predicate LinkOk(s: Stack, i: nat)
    requires i < |s.free|
  {
    && LinkAt(s.words, s.free, i)
    && s.free[i] in s.owner && s.owner[s.free[i]] == OnStack(i)
  }

  /** The header and the page words spell out the stack. */
  ghost predicate ChainOk(s: Stack)
  {
    && s.head == Top(s.free)
    && (forall i: nat :: i < |s.free| ==> LinkOk(s, i))
  }

  /** Every page has one owner, and the owner knows. */
  ghost predicate OwnerOk(s: Stack, p: nat)
    requires p in s.owner
  {
    match s.owner[p]
    case OnStack(i) => i < |s.free| && s.free[i] == p
    case Held(t) => t in s.pc && PageOf(s.pc[t]) == p
    case Client => true
  }

  ghost predicate HeldOk(s: Stack, t: Tid)
    requires t in s.pc
  {
    var p := PageOf(s.pc[t]);
    p != NO_PAGE ==> p in s.owner && s.owner[p] == Held(t)
  }

  ghost predicate OwnersOk(s: Stack)
  {
    && END !in s.owner
    && (forall p :: p in s.owner ==> p in s.words)
    && (forall p :: p in s.owner ==> OwnerOk(s, p))
    && (forall t :: t in s.pc ==> HeldOk(s, t))
  }

  ghost predicate ViewsOk(s: Stack)
  {
    forall t :: t in s.pc ==> ViewOk(s, s.pc[t])
  }

  ghost predicate Inv(s: Stack)
  {
    ChainOk(s) && OwnersOk(s) && ViewsOk(s)
  }

  // ---------------------------------------------------------------------------------
  // Preservation
  // ---------------------------------------------------------------------------------

  /** Writes to pages off the stack do not touch the chain. */
  lemma ChainFrame(s: Stack, s': Stack)
    requires ChainOk(s) && s'.head == s.head && s'.free == s.free
    requires forall p :: p in s.owner && s.owner[p].OnStack? ==>
               p in s'.owner && s'.owner[p] == s.owner[p]
                 && (p in s.words ==> p in s'.words && s'.words[p] == s.words[p])
    ensures ChainOk(s') == true
  {
    forall i: nat | i < |s'.free| ensures LinkOk(s', i) == true { assert LinkOk(s, i) == true; }
  }

  /** At most page p changes owner, and thread t is the only thread involved. */
  lemma OwnersFrame(s: Stack, s': Stack, t: Tid, p: nat)
    requires OwnersOk(s) && p in s.owner && p in s'.owner && s'.owner == s.owner[p := s'.owner[p]]
    requires t in s'.pc && s'.pc == s.pc[t := s'.pc[t]] && s'.words.Keys == s.words.Keys
    requires OwnerOk(s', p) && HeldOk(s', t)
    requires s.owner[p].Held? ==> s.owner[p].t == t
    requires t in s.pc && PageOf(s.pc[t]) != NO_PAGE ==> PageOf(s.pc[t]) == p
    requires forall i :: 0 <= i < |s.free| && s.free[i] != p ==> i < |s'.free| && s'.free[i] == s.free[i]
    ensures OwnersOk(s') == true
  {
    forall q | q in s'.owner ensures OwnerOk(s', q) == true {
      if q != p { assert OwnerOk(s, q) == true; }
    }
    forall t' | t' in s'.pc ensures HeldOk(s', t') == true {
      if t' != t { assert HeldOk(s, t') == true; }
    }
  }

  /** A thread that reads, fails an exchange or begins an allocation changes only its own
      program point. */
  lemma LocalStepKeepsInv(s: Stack, t: Tid, pc: PC)
    requires Inv(s) && ViewOk(s, pc)
    requires PageOf(pc) == if t in s.pc then PageOf(s.pc[t]) else NO_PAGE
    ensures Inv(s.(pc := s.pc[t := pc])) == true
  {
    var s' := s.(pc := s.pc[t := pc]);
    ChainFrame(s, s');
    if t in s.pc { assert HeldOk(s, t) == true; }
    forall p | p in s'.owner ensures OwnerOk(s', p) == true { assert OwnerOk(s, p) == true; }
    forall t' | t' in s'.pc ensures ViewOk(s', s'.pc[t']) == true && HeldOk(s', t') == true {
      if t' != t { assert ViewOk(s, s.pc[t']) == true && HeldOk(s, t') == true; }
    }
  }

  /** Writing a page that is not on the stack: the chain and every view survive, except the
      view of a thread that has just linked the page. */
  lemma WriteKeepsInv(s: Stack, p: nat, v: nat)
    requires Inv(s) && p in s.owner && !s.owner[p].OnStack?
    requires forall t :: t in s.pc && s.pc[t].FreeCas? ==> s.pc[t].p != p
    ensures Inv(s.(words := s.words[p := v])) == true
  {
    var s' := s.(words := s.words[p := v]);
    ChainFrame(s, s');
    if s.free != [] { assert LinkOk(s, |s.free| - 1) == true; }
    forall q | q in s'.owner ensures OwnerOk(s', q) == true { assert OwnerOk(s, q) == true; }
    forall t | t in s'.pc ensures ViewOk(s', s'.pc[t]) == true && HeldOk(s', t) == true {
      assert ViewOk(s, s.pc[t]) == true && HeldOk(s, t) == true;
    }
  }

  /** A page passes from its client to a thread or back. */
  lemma HandOverKeepsInv(s: Stack, s': Stack, t: Tid, p: nat, pc: PC, o: Owner)
    requires Inv(s) && p in s.owner && ViewOk(s, pc)
    requires if o == Client then s.owner[p] == Held(t) && PageOf(pc) == NO_PAGE
             else s.owner[p] == Client && o == Held(t) && PageOf(pc) == p && (t in s.pc ==> PageOf(s.pc[t]) == NO_PAGE)
    requires s' == s.(pc := s.pc[t := pc], owner := s.owner[p := o])
    ensures Inv(s') == true
  {
    assert OwnerOk(s, p) == true;
    if t in s.pc { assert HeldOk(s, t) == true; }
    ChainFrame(s, s');
    OwnersFrame(s, s', t, p);
    forall t' | t' in s'.pc ensures ViewOk(s', s'.pc[t']) == true {
      if t' != t { assert ViewOk(s, s.pc[t']) == true; }
    }
  }

  /** A successful exchange moves the counter on, so no other view can be acted on. */
  lemma ExchangeKeepsViews(s: Stack, s': Stack, t: Tid, pc: PC)
    requires ViewsOk(s) && s'.pc == s.pc[t := pc] && s'.refCnt > s.refCnt && ViewOk(s', pc)
    requires s'.words == s.words && s'.owner.Keys == s.owner.Keys
    ensures ViewsOk(s') == true
  {
    forall t' | t' in s'.pc ensures ViewOk(s', s'.pc[t']) == true {
      if t' != t { assert ViewOk(s, s.pc[t']) == true; }
    }
  }

  /** The exchange of `allocPagePtr` takes the top page and installs the true next one,
      although head and counter were loaded apart and the page was read in between. */
  lemma PopKeepsInv(s: Stack, s': Stack, t: Tid, pc: PC, o: Owner)
    requires Inv(s) && t in s.pc && s.pc[t].AllocCas? && s.pc[t].h == s.head && s.pc[t].g == s.refCnt
    requires (pc == Allocated(s.head) && o == Client) || (pc == AllocZero(s.head) && o == Held(t))
    requires |s.free| > 0 ==> s' == s.(head := s.pc[t].n, refCnt := s.refCnt + 1, free := s.free[..|s.free| - 1],
                                       owner := s.owner[s.head := o], pc := s.pc[t := pc])
    ensures |s.free| > 0 && Inv(s') == true
  {
    assert ViewOk(s, s.pc[t]) == true;
    assert LinkOk(s, |s.free| - 1) == true;
    ExchangeKeepsViews(s, s', t, pc);
    OwnersFrame(s, s', t, s.head);
    forall i: nat | i < |s'.free| ensures LinkOk(s', i) == true { assert LinkOk(s, i) == true; }
  }

  lemma PushKeepsInv(s: Stack, s': Stack, t: Tid)
    requires Inv(s) && t in s.pc && s.pc[t].FreeCas? && s.pc[t].h == s.head && s.pc[t].g == s.refCnt
    requires s' == s.(head := s.pc[t].p, refCnt := s.refCnt + 1, free := s.free + [s.pc[t].p],
                      owner := s.owner[s.pc[t].p := OnStack(|s.free|)], pc := s.pc[t := Idle])
    ensures Inv(s') == true
  {
    assert ViewOk(s, s.pc[t]) == true && HeldOk(s, t) == true;
    ExchangeKeepsViews(s, s', t, Idle);
    OwnersFrame(s, s', t, s.pc[t].p);
    forall i: nat | i < |s'.free| ensures LinkOk(s', i) == true {
      if i < |s.free| { assert LinkOk(s, i) == true; }
    }
  }

  /** Two threads never hold the same page. */
  lemma HoldersDiffer(s: Stack, t: Tid, t': Tid)
    requires OwnersOk(s) && t in s.pc && t' in s.pc && t != t' && PageOf(s.pc[t]) != NO_PAGE
    ensures PageOf(s.pc[t]) != PageOf(s.pc[t'])
  {
    assert HeldOk(s, t) == true && HeldOk(s, t') == true;
  }

  lemma FreeLinkKeepsInv(s: Stack, t: Tid)
    requires Inv(s) && t in s.pc && s.pc[t].FreeLink?
    ensures Inv(AdvanceThread(s, t)) == true
  {
    var FreeLink(p, h, g) := s.pc[t];
    assert HeldOk(s, t) == true;
    forall t' | t' in s.pc && s.pc[t'].FreeCas? ensures s.pc[t'].p != p { HoldersDiffer(s, t, t'); }
    WriteKeepsInv(s, p, h);
    LocalStepKeepsInv(s.(words := s.words[p := h]), t, FreeCas(p, h, g));
  }

  lemma AllocZeroKeepsInv(s: Stack, t: Tid)
    requires Inv(s) && t in s.pc && s.pc[t].AllocZero?
    ensures Inv(AdvanceThread(s, t)) == true
  {
    var p := s.pc[t].p;
    assert HeldOk(s, t) == true;
    forall t' | t' in s.pc && s.pc[t'].FreeCas? ensures s.pc[t'].p != p { HoldersDiffer(s, t, t'); }
    WriteKeepsInv(s, p, 0);
    var s1 := s.(words := s.words[p := 0]);
    HandOverKeepsInv(s1, AdvanceThread(s, t), t, p, Allocated(p), Client);
  }

  lemma ClientWriteKeepsInv(s: Stack, p: nat, v: nat)
    requires Inv(s) && p in s.owner && s.owner[p] == Client
    ensures Inv(s.(words := s.words[p := v])) == true
  {
    forall t | t in s.pc && s.pc[t].FreeCas? ensures s.pc[t].p != p { assert HeldOk(s, t) == true; }
    WriteKeepsInv(s, p, v);
  }

  predicate Exchanges(s: Stack, t: Tid)
  {
    t in s.pc && (s.pc[t].AllocCas? || s.pc[t].FreeCas?) && s.pc[t].h == s.head && s.pc[t].g == s.refCnt
  }

  lemma ExchangeKeepsInv(s: Stack, t: Tid)
    requires Inv(s) && Exchanges(s, t)
    ensures Inv(AdvanceThread(s, t)) == true
  {
    var s' := AdvanceThread(s, t);
    if s.pc[t].AllocCas? {
      PopKeepsInv(s, s', t, s'.pc[t], s'.owner[s.head]);
    } else {
      PushKeepsInv(s, s', t);
    }
  }

  /** A step that only reads: what it has read is what the invariant lets it rely on. */
  lemma ReadStep(s: Stack, t: Tid)
    requires Inv(s) && t in s.pc && !Exchanges(s, t) && !s.pc[t].FreeLink? && !s.pc[t].AllocZero?
    ensures var s' := AdvanceThread(s, t);
            && t in s'.pc && s' == s.(pc := s.pc[t := s'.pc[t]])
            && PageOf(s'.pc[t]) == PageOf(s.pc[t]) && ViewOk(s, s'.pc[t])
  {
    assert ViewOk(s, s.pc[t]) == true;
    if s.free != [] { assert LinkOk(s, |s.free| - 1) == true; }
    assert ViewOk(s, AdvanceThread(s, t).pc[t]) == true;
  }

  lemma ReadStepKeepsInv(s: Stack, t: Tid)
    requires Inv(s) && t in s.pc && !Exchanges(s, t) && !s.pc[t].FreeLink? && !s.pc[t].AllocZero?
    ensures Inv(AdvanceThread(s, t)) == true
  {
    ReadStep(s, t);
    LocalStepKeepsInv(s, t, AdvanceThread(s, t).pc[t]);
  }

  lemma StepKeepsInv(s: Stack, a: Action)
    requires Inv(s)
    ensures Inv(Step(s, a)) == true
  {
    match a
    case StartAlloc(t, zero) =>
      if AtRest(s, t) { LocalStepKeepsInv(s, t, AllocHead(zero)); }
    case StartFree(t, p) =>
      if AtRest(s, t) && p in s.owner && s.owner[p] == Client {
        HandOverKeepsInv(s, Step(s, a), t, p, FreeHead(p), Held(t));
      }
    case ClientWrite(p, v) =>
      if p in s.owner && s.owner[p] == Client { ClientWriteKeepsInv(s, p, v); }
    case Advance(t) =>
      if t in s.pc {
        if Exchanges(s, t) { ExchangeKeepsInv(s, t); }
        else if s.pc[t].FreeLink? { FreeLinkKeepsInv(s, t); }
        else if s.pc[t].AllocZero? { AllocZeroKeepsInv(s, t); }
        else { ReadStepKeepsInv(s, t); }
      }
  }

  // ---------------------------------------------------------------------------------
  // What holds in every run
  // ---------------------------------------------------------------------------------

  lemma {:induction false} RunKeepsInv(s: Stack, run: seq<Action>)
    requires Inv(s)
    ensures Inv(Exec(s, run)) == true && Exec(s, run).owner.Keys == s.owner.Keys
    decreases |run|
  {
    if run != [] {
      RunKeepsInv(s, run[..|run| - 1]);
      var p := Exec(s, run[..|run| - 1]);
      StepKeepsInv(p, run[|run| - 1]);
      StepKeepsPages(p, run[|run| - 1]);
    }
  }

  lemma StepKeepsPages(s: Stack, a: Action)
    requires Inv(s)
    ensures Step(s, a).owner.Keys == s.owner.Keys
  {
    if a.Advance? && a.t in s.pc {
      assert ViewOk(s, s.pc[a.t]) == true && HeldOk(s, a.t) == true;
    }
  }

  /** ABA safety. In every reachable state, an exchange of `allocPagePtr` that succeeds takes
      the top page of the true stack, leaves exactly the rest of it, and the page was nobody
      else's; one of `freePagePtr` puts the caller's page on top; no other step changes the stack. */
  lemma StepRefinesStack(s0: Stack, run: seq<Action>, a: Action)
    requires Inv(s0)
    ensures var s := Exec(s0, run);
            var s' := Step(s, a);
            && (a.Advance? && Exchanges(s, a.t) ==> Refines(s, s', a.t))
            && (!(a.Advance? && Exchanges(s, a.t)) ==> s'.free == s.free && s'.head == s.head)
  {
    RunKeepsInv(s0, run);
    var s := Exec(s0, run);
    if a.Advance? && Exchanges(s, a.t) {
      ExchangeRefines(s, a.t);
    }
  }

  /** The exchange from s to s' by thread t is one operation on the stack. */
  ghost predicate Refines(s: Stack, s': Stack, t: Tid)
    requires t in s.pc && t in s'.pc
  {
    match s.pc[t]
    case AllocCas(zero, h, _, n) =>
      && s.free == s'.free + [h] && s'.head == n == Top(s'.free)
      && h in s.owner && s.owner[h] == OnStack(|s'.free|)
      && s'.pc[t] == (if zero then AllocZero(h) else Allocated(h))
    case FreeCas(p, _, _) =>
      && s'.free == s.free + [p] && s'.head == p
      && p in s.owner && s.owner[p] == Held(t) && s'.pc[t] == Idle
    case _ => false
  }

  lemma ExchangeRefines(s: Stack, t: Tid)
    requires Inv(s) && Exchanges(s, t)
    ensures Refines(s, AdvanceThread(s, t), t) == true
  {
    assert ViewOk(s, s.pc[t]) == true && HeldOk(s, t) == true;
    if s.free != [] { assert LinkOk(s, |s.free| - 1) == true; }
  }

  /** The allocator panics only if the stack was empty when the panicking thread loaded the head. */
  lemma PanicJustified(s0: Stack, run: seq<Action>, t: Tid)
    requires Inv(s0)
    ensures var s := Exec(s0, run);
            t in s.pc ==>
              && (s.pc[t].AllocHead? ==> (Step(s, Advance(t)).pc[t] == AllocTag(s.pc[t].zero, END) <==> s.free == []))
              && (Step(s, Advance(t)).pc[t] == Panicked && s.pc[t] != Panicked ==> s.pc[t].AllocTag?
                                                                                   && s.pc[t].h == END)
  {
    RunKeepsInv(s0, run);
    var s := Exec(s0, run);
    if s.free != [] { assert LinkOk(s, |s.free| - 1) == true; }
  }

  ghost function FreePages(s: Stack): set<nat> { set p | p in s.owner && s.owner[p].OnStack? }
  ghost function ClientPages(s: Stack): set<nat> { set p | p in s.owner && s.owner[p].Client? }
  ghost function HeldPages(s: Stack): set<nat> { set p | p in s.owner && s.owner[p].Held? }

  /** Conservation: free pages, clients' pages and pages inside calls always add up to the
      pages there were at boot, and the stack lists each free page once. */
  lemma PagesConserved(s0: Stack, run: seq<Action>)
    requires Inv(s0)
    ensures var s := Exec(s0, run);
            && FreePages(s) + ClientPages(s) + HeldPages(s) == s0.owner.Keys
            && |s.free| + |ClientPages(s)| + |HeldPages(s)| == |s0.owner.Keys|
            && forall p :: p in FreePages(s) <==> p in s.free
  {
    RunKeepsInv(s0, run);
    Partition(Exec(s0, run));
    FreeListed(Exec(s0, run));
  }

  lemma Partition(s: Stack)
    requires Inv(s)
    ensures FreePages(s) + ClientPages(s) + HeldPages(s) == s.owner.Keys
    ensures |s.free| + |ClientPages(s)| + |HeldPages(s)| == |s.owner.Keys|
  {
    LowPagesCount(s, |s.free|);
    forall p | p in FreePages(s) ensures p in LowPages(s, |s.free|) { assert OwnerOk(s, p) == true; }
    assert LowPages(s, |s.free|) == FreePages(s);
    ThreeParts(FreePages(s), ClientPages(s), HeldPages(s), s.owner.Keys);
  }

  lemma ThreeParts(f: set<nat>, c: set<nat>, h: set<nat>, all: set<nat>)
    requires f !! c && f !! h && c !! h
    requires forall p :: p in all <==> p in f || p in c || p in h
    ensures f + c + h == all && |f| + |c| + |h| == |all|
  {
    assert f + c + h == all;
    assert |f + c| == |f| + |c|;
    assert (f + c) !! h;
  }

  lemma FreeListed(s: Stack)
    requires Inv(s)
    ensures forall p :: p in FreePages(s) <==> p in s.free
  {
    forall p | p in FreePages(s) ensures p in s.free { assert OwnerOk(s, p) == true; }
    forall i: nat | i < |s.free| ensures s.free[i] in FreePages(s) { assert LinkOk(s, i) == true; }
  }

  /** The pages among the n lowest of the stack. */
  ghost function LowPages(s: Stack, n: nat): set<nat>
  {
    set p | p in s.owner && s.owner[p].OnStack? && s.owner[p].i < n
  }

  lemma {:induction false} LowPagesCount(s: Stack, n: nat)
    requires Inv(s) && n <= |s.free|
    ensures |LowPages(s, n)| == n
  {
    if n == 0 {
      assert LowPages(s, 0) == {};
    } else {
      LowPagesCount(s, n - 1);
      var p := s.free[n - 1];
      assert LinkOk(s, n - 1) == true;
      forall q | q in LowPages(s, n) && q !in LowPages(s, n - 1) ensures q == p { assert OwnerOk(s, q) == true; }
      assert LowPages(s, n) == LowPages(s, n - 1) + {p};
    }
  }

  // ---------------------------------------------------------------------------------
  // Boot: the constructor builds the initial stack
  // ---------------------------------------------------------------------------------

  /** A `PhysicalMemoryRegion`: the bytes from start up to end. */
  datatype Region = Region(start: nat, end: nat)

  predicate Disjoint(regions: seq<Region>)
  {
    && (forall i :: 0 <= i < |regions| ==> regions[i].start <= regions[i].end)
    && (forall i, j :: 0 <= i < j < |regions| ==>
          regions[i].end <= regions[j].start || regions[j].end <= regions[i].start)
  }

  function PageCount(r: Region): nat
    requires r.start <= r.end
  {
    (r.end - r.start) / 4096
  }

  function PageAt(r: Region, k: nat): nat
  {
    RAM_VIRTUAL_BASE + r.start + k * 4096
  }

  /** The first n pages of a region, the last of them first. */
  function Descending(r: Region, n: nat): (list: seq<nat>)
    ensures |list| == n
  {
    seq(n, i requires 0 <= i < n => PageAt(r, n - 1 - i))
  }

  /** The stack that boot leaves, from the bottom up: each later region lies on top, and in
      a region the lowest address is on top. */
  function BootPages(regions: seq<Region>): seq<nat>
    requires Disjoint(regions)
  {
    if regions == [] then []
    else
      var r := regions[|regions| - 1];
      BootPages(regions[..|regions| - 1]) + Descending(r, PageCount(r))
  }

  function TotalSize(regions: seq<Region>): int
  {
    if regions == [] then 0
    else TotalSize(regions[..|regions| - 1]) + regions[|regions| - 1].end - regions[|regions| - 1].start
  }

  /** Every page of the boot stack is a page of one of the regions. */
  lemma {:induction false} BootPageOf(regions: seq<Region>, i: nat) returns (j: nat, k: nat)
    requires Disjoint(regions) && i < |BootPages(regions)|
    ensures j < |regions| && k < PageCount(regions[j]) && BootPages(regions)[i] == PageAt(regions[j], k)
  {
    var r := regions[|regions| - 1];
    var low := BootPages(regions[..|regions| - 1]);
    if i < |low| {
      j, k := BootPageOf(regions[..|regions| - 1], i);
    } else {
      j, k := |regions| - 1, PageCount(r) - 1 - (i - |low|);
    }
  }

  lemma PagesApart(r: Region, r': Region, k: nat, k': nat)
    requires r.start <= r.end && r'.start <= r'.end
    requires r.end <= r'.start || r'.end <= r.start
    requires k < PageCount(r) && k' < PageCount(r')
    ensures PageAt(r, k) != PageAt(r', k')
  {
    assert (k + 1) * 4096 <= r.end - r.start;
    assert (k' + 1) * 4096 <= r'.end - r'.start;
  }

  /** Disjoint regions have distinct pages: no page of the last region is in the stack of the others. */
  lemma NewPagesApart(regions: seq<Region>, i: nat, k: nat)
    requires Disjoint(regions) && regions != []
    requires var low := regions[..|regions| - 1];
             i < |BootPages(low)| && k < PageCount(regions[|regions| - 1])
    ensures BootPages(regions[..|regions| - 1])[i] != PageAt(regions[|regions| - 1], k)
  {
    var j, k' := BootPageOf(regions[..|regions| - 1], i);
    PagesApart(regions[j], regions[|regions| - 1], k', k);
  }

  lemma {:induction false} BootPagesDistinct(regions: seq<Region>, i: nat, j: nat)
    requires Disjoint(regions) && i < j < |BootPages(regions)|
    ensures BootPages(regions)[i] != BootPages(regions)[j]
  {
    var r := regions[|regions| - 1];
    var low := BootPages(regions[..|regions| - 1]);
    if j < |low| {
      BootPagesDistinct(regions[..|regions| - 1], i, j);
    } else if i < |low| {
      NewPagesApart(regions, i, PageCount(r) - 1 - (j - |low|));
    } else {
      var n := PageCount(r);
      assert BootPages(regions)[i] == PageAt(r, n - 1 - (i - |low|));
      assert BootPages(regions)[j] == PageAt(r, n - 1 - (j - |low|));
    }
  }

  ghost predicate Linked(words: map<nat, nat>, list: seq<nat>)
  {
    forall i: nat :: i < |list| ==> LinkAt(words, list, i)
  }

  /** Memory after each of the first n pages of a region was linked to the next page. */
  function Ascend(words: map<nat, nat>, r: Region, n: nat): map<nat, nat>
  {
    if n == 0 then words else Ascend(words, r, n - 1)[PageAt(r, n - 1) := PageAt(r, n)]
  }

  datatype Image = Image(words: map<nat, nat>, head: nat)

  /** Memory and head after one more region was put on top. */
  function AddRegion(m: Image, r: Region): Image
    requires r.start <= r.end
  {
    var n := PageCount(r);
    if n == 0 then m else Image(Ascend(m.words, r, n - 1)[PageAt(r, n - 1) := m.head], PageAt(r, 0))
  }

  function BootImage(memory: map<nat, nat>, regions: seq<Region>): Image
    requires Disjoint(regions)
  {
    if regions == [] then Image(memory, END)
    else AddRegion(BootImage(memory, regions[..|regions| - 1]), regions[|regions| - 1])
  }

  ghost predicate IsMaxEnd(regions: seq<Region>, m: nat)
  {
    && (forall i :: 0 <= i < |regions| ==> regions[i].end <= m)
    && (m == 0 || exists i :: 0 <= i < |regions| && regions[i].end == m)
  }

  /** The allocator object as its constructor leaves it; from then on `allocPagePtr` and
      `freePagePtr` run concurrently and are the transition system above. */
  class RamAllocator {
    var words: map<nat, nat>  // memory, as far as first words of pages go
    var head: nat
    var avaibleRamSize: nat
    var maxRamAddr: nat

    constructor (memory: map<nat, nat>, regions: seq<Region>)
      requires Disjoint(regions)
      ensures Image(words, head) == BootImage(memory, regions)
      ensures avaibleRamSize == TotalSize(regions) && IsMaxEnd(regions, maxRamAddr)
    {
      words, head, avaibleRamSize, maxRamAddr := memory, END, 0, 0;
      new;
      for idx := 0 to |regions|
        invariant Image(words, head) == BootImage(memory, regions[..idx])
        invariant avaibleRamSize == TotalSize(regions[..idx]) && IsMaxEnd(regions[..idx], maxRamAddr)
      {
        assert regions[..idx + 1][..idx] == regions[..idx];
        var r := regions[idx];
        MaxEndGrows(regions[..idx + 1], maxRamAddr);
        maxRamAddr := if r.end > maxRamAddr then r.end else maxRamAddr;
        avaibleRamSize := avaibleRamSize + (r.end - r.start);
        LinkRegion(r);
      }
      assert regions[..|regions|] == regions;
    }

    /** Links the pages of a region in ascending order and the last one to the old head. */
    method LinkRegion(r: Region)
      requires r.start <= r.end
      modifies this`words, this`head
      ensures Image(words, head) == AddRegion(old(Image(words, head)), r)
    {
      var startPtr := PageAt(r, 0);
      var ptr := startPtr;
      var pageCnt := (r.end - r.start) / 4096;
      ghost var n := pageCnt;
      if pageCnt == 0 { return; }
      pageCnt := pageCnt - 1;
      while pageCnt > 0
        invariant 0 <= pageCnt < n
        invariant ptr == PageAt(r, n - 1 - pageCnt)
        invariant head == old(head) && words == Ascend(old(words), r, n - 1 - pageCnt)
      {
        words := words[ptr := ptr + 4096];
        ptr := ptr + 4096;
        pageCnt := pageCnt - 1;
      }
      words := words[ptr := head];
      head := startPtr;
    }
  }

  lemma MaxEndGrows(regions: seq<Region>, m: nat)
    requires regions != [] && IsMaxEnd(regions[..|regions| - 1], m)
    ensures var e := regions[|regions| - 1].end; IsMaxEnd(regions, if e > m then e else m)
  {
    if m > 0 {
      var i :| 0 <= i < |regions| - 1 && regions[..|regions| - 1][i].end == m;
      assert regions[i].end == m;
    }
  }

  lemma {:induction false} AscendAt(words: map<nat, nat>, r: Region, n: nat, p: nat)
    ensures forall k: nat :: k < n && p == PageAt(r, k) ==> p in Ascend(words, r, n)
                                                            && Ascend(words, r, n)[p] == PageAt(r, k + 1)
    ensures (forall k: nat :: k < n ==> p != PageAt(r, k)) ==>
              (p in Ascend(words, r, n) <==> p in words) && (p in words ==> Ascend(words, r, n)[p] == words[p])
  {
    if n > 0 { AscendAt(words, r, n - 1, p); }
  }

  /** A region on top of a linked list of other pages gives a linked list. */
  lemma RegionLinked(m: Image, low: seq<nat>, r: Region)
    requires r.start <= r.end && m.head == Top(low) && Linked(m.words, low)
    requires forall i: nat, k: nat :: i < |low| && k < PageCount(r) ==> low[i] != PageAt(r, k)
    ensures var m' := AddRegion(m, r);
            var list := low + Descending(r, PageCount(r));
            m'.head == Top(list) && Linked(m'.words, list)
  {
    var n := PageCount(r);
    var list := low + Descending(r, n);
    var m' := AddRegion(m, r);
    if n == 0 {
      assert list == low;
    } else {
      forall i: nat | i < |list| ensures LinkAt(m'.words, list, i) == true {
        AscendAt(m.words, r, n - 1, list[i]);
        if i < |low| {
          assert LinkAt(m.words, low, i) == true;
        } else {
          var k := n - 1 - (i - |low|);
          assert list[i] == PageAt(r, k);
          assert i > |low| ==> list[i - 1] == PageAt(r, k + 1);
        }
      }
    }
  }

  /** Boot links exactly the pages of the regions: the list that starts at the head is the
      list of all of them. */
  lemma {:induction false} BootLinked(memory: map<nat, nat>, regions: seq<Region>)
    requires Disjoint(regions)
    ensures var m := BootImage(memory, regions);
            m.head == Top(BootPages(regions)) && Linked(m.words, BootPages(regions))
  {
    if regions != [] {
      var init, r := regions[..|regions| - 1], regions[|regions| - 1];
      var low := BootPages(init);
      BootLinked(memory, init);
      forall i: nat, k: nat | i < |low| && k < PageCount(r) ensures low[i] != PageAt(r, k) {
        NewPagesApart(regions, i, k);
      }
      RegionLinked(BootImage(memory, init), low, r);
    }
  }

  /** The state the constructor leaves, as a state of the protocol. */
  ghost function Boot(m: Image, pages: seq<nat>): Stack
  {
    Stack(m.words, m.head, 0, map[], pages, map p | p in pages :: OnStack(IndexOf(pages, p)))
  }

  ghost function IndexOf(list: seq<nat>, p: nat): nat
  {
    if list == [] then 0
    else if list[|list| - 1] == p then |list| - 1
    else IndexOf(list[..|list| - 1], p)
  }

  lemma {:induction false} IndexFound(list: seq<nat>, i: nat)
    requires i < |list|
    requires forall j :: i < j < |list| ==> list[j] != list[i]
    ensures IndexOf(list, list[i]) == i
  {
    if i < |list| - 1 {
      IndexFound(list[..|list| - 1], i);
    }
  }

  lemma BootIndex(regions: seq<Region>, i: nat)
    requires Disjoint(regions) && i < |BootPages(regions)|
    ensures IndexOf(BootPages(regions), BootPages(regions)[i]) == i && BootPages(regions)[i] != END
  {
    var pages := BootPages(regions);
    forall j | i < j < |pages| ensures pages[j] != pages[i] { BootPagesDistinct(regions, i, j); }
    IndexFound(pages, i);
    var j, k := BootPageOf(regions, i);
  }

  /** What the constructor leaves is a state in which every statement above holds from then on,
      whatever memory held before. */
  lemma BootInv(memory: map<nat, nat>, regions: seq<Region>)
    requires Disjoint(regions)
    ensures Inv(Boot(BootImage(memory, regions), BootPages(regions)))
  {
    var pages := BootPages(regions);
    var m := BootImage(memory, regions);
    var s := Boot(m, pages);
    BootLinked(memory, regions);
    forall i: nat | i < |pages| ensures LinkOk(s, i) == true && IndexOf(pages, pages[i]) == i && pages[i] != END {
      BootIndex(regions, i);
      assert LinkAt(m.words, pages, i) == true;
    }
    forall p | p in s.owner ensures OwnerOk(s, p) == true && p in s.words {
      var i: nat :| i < |pages| && pages[i] == p;
      assert IndexOf(pages, pages[i]) == i;
    }
  }
}
