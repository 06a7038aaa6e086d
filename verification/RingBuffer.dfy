/** The bounded multi-producer multi-consumer ring of include/LockFreeRingBuffer.h,
    as a transition system.

    Every access to shared memory in `push` and `pop` (an index load, a counter load, a
    compare-and-exchange, the data access, the counter store) is one step of one thread.
    A run is any finite list of steps by any number of threads, so a statement about
    `Exec(Init(..), run)` is a statement about every interleaving. */
module RingBuffer {

  type Tid = nat

  datatype Option<+T> = None | Some(value: T)

  /** One `Item` of the buffer. */
  datatype Slot<T> = Slot(counter: nat, data: T)

  /** Where a thread is inside `push` or `pop`; `index` is the local variable of that name. */
  datatype PC<T> =
    | Idle
    | PushStart(v: T)
    | PushCheck(v: T, index: nat)
    | PushCas(v: T, index: nat)
    | PushWrite(v: T, index: nat)
    | PushPublish(v: T, index: nat)
    | PushDone(ok: bool)
    | PopStart
    | PopCheck(index: nat)
    | PopCas(index: nat)
    | PopRead(index: nat)
    | PopRelease(index: nat, v: T)
    | PopDone(result: Option<T>)

  /** How far the value of a write ticket has come. */
  datatype Phase = Writing | Full | Reading | Released

  /** History of one write ticket: who won it, the value, how far it came, and who won the
      read ticket of the same number (meaningful from `Reading` on). */
  datatype Ticket<T> = Ticket(v: T, producer: Tid, phase: Phase, consumer: Tid)

  /** The shared memory of the buffer, the program point of every thread, and the history. */
  datatype Ring<T> = Ring(
    slots: seq<Slot<T>>,
    writeIndex: nat,
    readIndex: nat,
    pc: map<Tid, PC<T>>,
    tickets: seq<Ticket<T>>)

  /** `index % m_size`, by repeated subtraction (see `IdxIsRemainder`). */
  function Idx(t: nat, n: nat): (i: nat)
    requires n > 0
    ensures i < n
  {
    if t < n then t else Idx(t - n, n)
  }

  datatype Action<T> =
    | StartPush(t: Tid, v: T)
    | StartPop(t: Tid)
    | Advance(t: Tid, spurious: bool)  // `spurious`: a weak compare-and-exchange fails for no reason

  function Init<T>(items: seq<T>): (s: Ring<T>)
  {
    Ring(seq(|items|, i requires 0 <= i < |items| => Slot(i, items[i])), 0, 0, map[], [])
  }

  predicate AtRest<T>(s: Ring<T>, t: Tid)
  {
    t !in s.pc || s.pc[t].Idle? || s.pc[t].PushDone? || s.pc[t].PopDone?
  }

  /** Records in the history that ticket i reached a phase, by an action of thread t. */
  function Mark<T>(tickets: seq<Ticket<T>>, i: nat, phase: Phase, t: Tid): (r: seq<Ticket<T>>)
  {
    if i < |tickets| then
      tickets[i := tickets[i].(phase := phase, consumer := t)]
    else
      tickets
  }

  /** One step. A thread that is not where the action needs it does nothing. */
  function Step<T>(s: Ring<T>, a: Action<T>): (s': Ring<T>)
    requires |s.slots| > 0
  {
    match a
    case StartPush(t, v) =>
      if AtRest(s, t) then s.(pc := s.pc[t := PushStart(v)]) else s
    case StartPop(t) =>
      if AtRest(s, t) then s.(pc := s.pc[t := PopStart]) else s
    case Advance(t, spurious) =>
      if t !in s.pc then s else AdvanceThread(s, t, spurious)
  }

  function AdvanceThread<T>(s: Ring<T>, t: Tid, spurious: bool): (s': Ring<T>)
    requires |s.slots| > 0 && t in s.pc
  {
    match s.pc[t]
    case PushStart(v) =>
      s.(pc := s.pc[t := PushCheck(v, s.writeIndex)])
    case PushCheck(v, index) =>
      var cnt := s.slots[Idx(index, |s.slots|)].counter;
      s.(pc := s.pc[t := if cnt == index then PushCas(v, index)
                         else if cnt < index then PushDone(false)
                         else PushStart(v)])
    case PushCas(v, index) =>
      if s.writeIndex == index && !spurious then
        s.(writeIndex := index + 1, tickets := s.tickets + [Ticket(v, t, Writing, t)],
           pc := s.pc[t := PushWrite(v, index)])
      else
        s.(pc := s.pc[t := PushStart(v)])
    case PushWrite(v, index) =>
      var i := Idx(index, |s.slots|);
      s.(slots := s.slots[i := s.slots[i].(data := v)], pc := s.pc[t := PushPublish(v, index)])
    case PushPublish(v, index) =>
      var i := Idx(index, |s.slots|);
      s.(slots := s.slots[i := s.slots[i].(counter := index + 1)], pc := s.pc[t := PushDone(true)],
         tickets := Mark(s.tickets, index, Full, t))
    case PopStart =>
      s.(pc := s.pc[t := PopCheck(s.readIndex)])
    case PopCheck(index) =>
      var cnt := s.slots[Idx(index, |s.slots|)].counter;
      s.(pc := s.pc[t := if cnt == index + 1 then PopCas(index)
                         else if cnt < index + 1 then PopDone(None)
                         else PopStart])
    case PopCas(index) =>
      if s.readIndex == index && !spurious then
        s.(readIndex := index + 1, tickets := Mark(s.tickets, index, Reading, t), pc := s.pc[t := PopRead(index)])
      else
        s.(pc := s.pc[t := PopStart])
    case PopRead(index) =>
      var v := s.slots[Idx(index, |s.slots|)].data;
      s.(pc := s.pc[t := PopRelease(index, v)])
    case PopRelease(index, v) =>
      var i := Idx(index, |s.slots|);
      s.(slots := s.slots[i := s.slots[i].(counter := index + |s.slots|)],
         pc := s.pc[t := PopDone(Some(v))],
         tickets := Mark(s.tickets, index, Released, t))
    case _ => s
  }

  function Exec<T>(s: Ring<T>, run: seq<Action<T>>): (s': Ring<T>)
    requires |s.slots| > 0
    ensures |s'.slots| == |s.slots|
    decreases |run|
  {
    if run == [] then s
    else
      var p := Exec(s, run[..|run| - 1]);
      Step(p, run[|run| - 1])
  }

  // ---------------------------------------------------------------------------------
  // The invariant
  // ---------------------------------------------------------------------------------

  /** Thread t has won write ticket i and has not published it yet. */
  ghost predicate Producing<T>(s: Ring<T>, t: Tid, i: nat)
  {
    t in s.pc && (s.pc[t].PushWrite? || s.pc[t].PushPublish?) && s.pc[t].index == i
  }

  /** Thread t has won read ticket i and has not released its slot yet. */
  ghost predicate Consuming<T>(s: Ring<T>, t: Tid, i: nat)
  {
    t in s.pc && (s.pc[t].PopRead? || s.pc[t].PopRelease?) && s.pc[t].index == i
  }

  function SlotOf<T>(s: Ring<T>, i: nat): Slot<T>
    requires |s.slots| > 0
  {
    s.slots[Idx(i, |s.slots|)]
  }

  /** Where ticket i stands, who is working on it, and what its slot holds meanwhile. */
  ghost predicate TicketOk<T>(s: Ring<T>, i: nat)
    requires |s.slots| > 0 && i < |s.tickets|
  {
    var k := s.tickets[i];
    && (k.phase != Released ==> s.writeIndex <= i + |s.slots|)
    && (i < s.readIndex <==> k.phase == Reading || k.phase == Released)
    && (k.phase == Writing ==> Producing(s, k.producer, i) && SlotOf(s, i).counter == i)
    && (k.phase == Full ==> SlotOf(s, i) == Slot(i + 1, k.v))
    && (k.phase == Reading ==> Consuming(s, k.consumer, i) && SlotOf(s, i) == Slot(i + 1, k.v))
    && (k.phase == Released && s.writeIndex <= i + |s.slots| ==> SlotOf(s, i).counter == i + |s.slots|)
  }

  /** What a thread knows at its program point. */
  ghost predicate ThreadOk<T>(s: Ring<T>, t: Tid)
    requires |s.slots| > 0 && t in s.pc
  {
    match s.pc[t]
    case PushCheck(v, i) => i <= s.writeIndex
    case PushCas(v, i) => i <= s.writeIndex && (i == s.writeIndex ==> SlotOf(s, i).counter == i)
    case PushWrite(v, i) => i < |s.tickets| && s.tickets[i] == Ticket(v, t, Writing, t)
    case PushPublish(v, i) => i < |s.tickets| && s.tickets[i] == Ticket(v, t, Writing, t) && SlotOf(s, i).data == v
    case PopCheck(i) => i <= s.readIndex
    case PopCas(i) => i <= s.readIndex && (i == s.readIndex ==> SlotOf(s, i).counter == i + 1)
    case PopRead(i) => i < |s.tickets| && s.tickets[i].phase == Reading && s.tickets[i].consumer == t
    case PopRelease(i, v) => i < |s.tickets| && s.tickets[i].phase == Reading && s.tickets[i].consumer == t
      && s.tickets[i].v == v
    case _ => true
  }

  ghost predicate Inv<T>(s: Ring<T>)
  {
    && |s.slots| >= 2
    && |s.tickets| == s.writeIndex
    && s.readIndex <= s.writeIndex <= s.readIndex + |s.slots|
    && (forall i: nat :: i < |s.tickets| ==> TicketOk(s, i))
    && (forall u: nat :: s.writeIndex <= u < |s.slots| ==> s.slots[u].counter == u)
    && (forall t :: t in s.pc ==> ThreadOk(s, t))
  }

  // ---------------------------------------------------------------------------------
  // Slot arithmetic
  // ---------------------------------------------------------------------------------

  lemma {:induction false} IdxIsRemainder(t: nat, n: nat)
    requires n > 0
    ensures Idx(t, n) == t % n
  {
    if t >= n {
      IdxIsRemainder(t - n, n);
      assert t == n * ((t - n) / n + 1) + (t - n) % n;
      RemainderUnique(t, n, (t - n) / n + 1, (t - n) % n);
    } else {
      RemainderUnique(t, n, 0, t);
    }
  }

  lemma RemainderUnique(t: nat, n: nat, q: nat, r: nat)
    requires r < n && t == n * q + r
    ensures t % n == r
  {
    var k: int := t / n;
    var m: int := t % n;
    assert n * k + m == n * q + r && 0 <= m < n;
    if k >= q + 1 { MulMono(n, q + 1, k); }
    if k + 1 <= q { MulMono(n, k + 1, q); }
  }

  lemma MulMono(n: nat, a: nat, b: nat)
    requires a <= b
    ensures n * a <= n * b
  {
  }

  /** Tickets less than a buffer apart use different slots. */
  lemma {:induction false} IdxDistinct(t: nat, u: nat, n: nat)
    requires t < u < t + n
    ensures Idx(t, n) != Idx(u, n)
    decreases t
  {
    if t >= n {
      IdxDistinct(t - n, u - n, n);
    }
  }

  // ---------------------------------------------------------------------------------
  // Preservation, one group of program points at a time
  // ---------------------------------------------------------------------------------

  predicate HoldsTicket<T>(p: PC<T>)
  {
    p.PushWrite? || p.PushPublish? || p.PopRead? || p.PopRelease?
  }

  /** Steps that change nothing but the program point of a thread holding no ticket. */
  lemma LocalStepKeepsInv<T>(s: Ring<T>, t: Tid, p: PC<T>)
    requires Inv(s)
    requires t in s.pc ==> !HoldsTicket(s.pc[t])
    requires !HoldsTicket(p)
    requires ThreadOk(s.(pc := s.pc[t := p]), t)
    ensures Inv(s.(pc := s.pc[t := p])) == true
  {
    var s' := s.(pc := s.pc[t := p]);
    forall t' | t' in s'.pc ensures ThreadOk(s', t') == true {
      if t' != t { assert ThreadOk(s, t') == true; }
    }
    forall i: nat | i < |s'.tickets| ensures TicketOk(s', i) == true {
      assert TicketOk(s, i) == true;
    }
  }

  /** Two tickets that both still occupy a slot occupy different ones. */
  lemma WindowSlotsDistinct(w: nat, n: nat, i: nat, j: nat)
    requires i < w <= i + n && j < w <= j + n && i != j
    ensures Idx(i, n) != Idx(j, n)
  {
    if i < j { IdxDistinct(i, j, n); } else { IdxDistinct(j, i, n); }
  }

  /** The slot of the next write ticket is the slot of the ticket one buffer earlier. */
  lemma NextSlot<T>(s: Ring<T>)
    requires Inv(s) && s.writeIndex >= |s.slots|
    ensures SlotOf(s, s.writeIndex) == SlotOf(s, s.writeIndex - |s.slots|)
    ensures TicketOk(s, s.writeIndex - |s.slots|) == true
  {
  }

  /** A counter one above readIndex means that ticket readIndex is published and unread. */
  lemma ReadSlotIsTicket<T>(s: Ring<T>)
    requires Inv(s)
    ensures s.readIndex == s.writeIndex ==> SlotOf(s, s.readIndex).counter <= s.readIndex
    ensures s.readIndex < s.writeIndex ==> TicketOk(s, s.readIndex)
  {
    if s.readIndex == s.writeIndex && s.writeIndex >= |s.slots| { NextSlot(s); }
  }

  /** Winning a write ticket disturbs no other thread ... */
  lemma PushCasThreads<T>(s: Ring<T>, s': Ring<T>, t: Tid, v: T)
    requires Inv(s) && t in s.pc && s.pc[t] == PushCas(v, s.writeIndex)
    requires s' == s.(writeIndex := s.writeIndex + 1, tickets := s.tickets + [Ticket(v, t, Writing, t)],
                      pc := s.pc[t := PushWrite(v, s.writeIndex)])
    ensures forall t' :: t' in s'.pc ==> ThreadOk(s', t')
  {
    forall t' | t' in s'.pc ensures ThreadOk(s', t') == true {
      if t' != t { assert ThreadOk(s, t') == true; }
    }
  }

  /** ... and no other ticket; the slot is free for it because its last user released it. */
  lemma PushCasKeepsInv<T>(s: Ring<T>, s': Ring<T>, t: Tid, v: T)
    requires Inv(s) && t in s.pc && s.pc[t] == PushCas(v, s.writeIndex)
    requires s' == s.(writeIndex := s.writeIndex + 1, tickets := s.tickets + [Ticket(v, t, Writing, t)],
                      pc := s.pc[t := PushWrite(v, s.writeIndex)])
    ensures Inv(s') == true && s.writeIndex < s.readIndex + |s.slots|
  {
    assert ThreadOk(s, t) == true;
    if s.writeIndex >= |s.slots| { NextSlot(s); }
    PushCasThreads(s, s', t, v);
    forall i: nat | i < |s'.tickets| ensures TicketOk(s', i) == true {
      if i < s.writeIndex { assert TicketOk(s, i) == true; }
    }
  }

  lemma PopCasThreads<T>(s: Ring<T>, s': Ring<T>, t: Tid)
    requires Inv(s) && t in s.pc && s.pc[t] == PopCas(s.readIndex) && s.readIndex < |s.tickets|
    requires s' == s.(readIndex := s.readIndex + 1, tickets := Mark(s.tickets, s.readIndex, Reading, t),
                      pc := s.pc[t := PopRead(s.readIndex)])
    ensures forall t' :: t' in s'.pc ==> ThreadOk(s', t')
  {
    assert TicketOk(s, s.readIndex) == true && ThreadOk(s, t) == true;
    forall t' | t' in s'.pc ensures ThreadOk(s', t') == true {
      if t' != t { assert ThreadOk(s, t') == true; }
    }
  }

  /** Winning a read ticket: the ticket is published and nobody else reads it. */
  lemma PopCasKeepsInv<T>(s: Ring<T>, s': Ring<T>, t: Tid)
    requires Inv(s) && t in s.pc && s.pc[t] == PopCas(s.readIndex)
    requires s' == s.(readIndex := s.readIndex + 1, tickets := Mark(s.tickets, s.readIndex, Reading, t),
                      pc := s.pc[t := PopRead(s.readIndex)])
    ensures Inv(s') == true && s.readIndex < s.writeIndex && s.tickets[s.readIndex].phase == Full
  {
    assert ThreadOk(s, t) == true;
    ReadSlotIsTicket(s);
    PopCasThreads(s, s', t);
    forall i: nat | i < |s'.tickets| ensures TicketOk(s', i) == true {
      assert TicketOk(s, i) == true;
    }
  }

  /** s' differs from s only in the slot and the history of ticket i, which thread t holds,
      and in t's program point. */
  ghost predicate OnlyTicketChanged<T>(s: Ring<T>, s': Ring<T>, t: Tid, i: nat)
  {
    && 0 < |s'.slots| == |s.slots| && s'.slots == s.slots[Idx(i, |s.slots|) := SlotOf(s', i)]
    && t in s.pc && t in s'.pc && HoldsTicket(s.pc[t]) && s.pc[t].index == i && s'.pc == s.pc[t := s'.pc[t]]
    && i < |s.tickets| == |s'.tickets| && s'.tickets == s.tickets[i := s'.tickets[i]]
    && s'.writeIndex == s.writeIndex && s'.readIndex == s.readIndex
  }

  lemma OtherTicket<T>(s: Ring<T>, s': Ring<T>, t: Tid, i: nat, j: nat)
    requires OnlyTicketChanged(s, s', t, i) && |s.tickets| == s.writeIndex <= i + |s.slots|
    requires ThreadOk(s, t) && j < |s.tickets| && j != i && TicketOk(s, j)
    ensures TicketOk(s', j) == true
  {
    if s.writeIndex <= j + |s.slots| { WindowSlotsDistinct(s.writeIndex, |s.slots|, i, j); }
  }

  lemma OtherHolder<T>(s: Ring<T>, s': Ring<T>, t: Tid, i: nat, t': Tid)
    requires Inv(s) && OnlyTicketChanged(s, s', t, i) && t' in s.pc && t' != t && HoldsTicket(s.pc[t'])
    ensures ThreadOk(s', t') == true
  {
    assert ThreadOk(s, t) == true && TicketOk(s, i) == true && ThreadOk(s, t') == true;
    var j := s.pc[t'].index;
    assert TicketOk(s, j) == true;
    WindowSlotsDistinct(s.writeIndex, |s.slots|, i, j);
  }

  lemma OtherCompetitor<T>(s: Ring<T>, s': Ring<T>, t: Tid, i: nat, t': Tid)
    requires Inv(s) && OnlyTicketChanged(s, s', t, i) && t' in s.pc && t' != t && !HoldsTicket(s.pc[t'])
    ensures ThreadOk(s', t') == true
  {
    var n, p := |s.slots|, s.pc[t'];
    assert ThreadOk(s, t) == true && TicketOk(s, i) == true && ThreadOk(s, t') == true;
    if p.PushCas? && p.index == s.writeIndex {
      if s.writeIndex == i + n { NextSlot(s); } else { IdxDistinct(i, s.writeIndex, n); }
    } else if p.PopCas? && p.index == s.readIndex {
      ReadSlotIsTicket(s);
      WindowSlotsDistinct(s.writeIndex, n, i, s.readIndex);
    }
  }

  /** The holder of a ticket writes its slot: no other ticket, thread or free slot notices. */
  lemma TicketStepKeepsInv<T>(s: Ring<T>, s': Ring<T>, t: Tid, i: nat)
    requires Inv(s) && OnlyTicketChanged(s, s', t, i)
    requires ThreadOk(s', t) && TicketOk(s', i)
    ensures Inv(s') == true
  {
    assert ThreadOk(s, t) == true && TicketOk(s, i) == true;
    forall j: nat | j < |s'.tickets| ensures TicketOk(s', j) == true {
      if j != i { OtherTicket(s, s', t, i, j); }
    }
    forall t' | t' in s'.pc ensures ThreadOk(s', t') == true {
      if t' != t {
        if HoldsTicket(s.pc[t']) { OtherHolder(s, s', t, i, t'); } else { OtherCompetitor(s, s', t, i, t'); }
      }
    }
  }

  lemma HolderStepKeepsInv<T>(s: Ring<T>, t: Tid, spurious: bool)
    requires Inv(s) && t in s.pc && HoldsTicket(s.pc[t])
    ensures Inv(AdvanceThread(s, t, spurious)) == true
  {
    var i := s.pc[t].index;
    assert ThreadOk(s, t) == true && TicketOk(s, i) == true;
    TicketStepKeepsInv(s, AdvanceThread(s, t, spurious), t, i);
  }

  lemma CompetingStepKeepsInv<T>(s: Ring<T>, t: Tid, spurious: bool)
    requires Inv(s) && t in s.pc && !HoldsTicket(s.pc[t])
    ensures Inv(AdvanceThread(s, t, spurious)) == true
  {
    var p := s.pc[t];
    var s' := AdvanceThread(s, t, spurious);
    assert ThreadOk(s, t) == true;
    if p.PushCas? && p.index == s.writeIndex && !spurious {
      PushCasKeepsInv(s, s', t, p.v);
    } else if p.PopCas? && p.index == s.readIndex && !spurious {
      PopCasKeepsInv(s, s', t);
    } else {
      LocalNext(s, t, spurious);
      LocalStepKeepsInv(s, t, s'.pc[t]);
    }
  }

  lemma LocalNext<T>(s: Ring<T>, t: Tid, spurious: bool)
    requires |s.slots| > 0 && t in s.pc && !HoldsTicket(s.pc[t]) && ThreadOk(s, t)
    requires s.pc[t].PushCas? ==> s.pc[t].index != s.writeIndex || spurious
    requires s.pc[t].PopCas? ==> s.pc[t].index != s.readIndex || spurious
    ensures var s' := AdvanceThread(s, t, spurious);
            t in s'.pc && s' == s.(pc := s.pc[t := s'.pc[t]]) && !HoldsTicket(s'.pc[t]) && ThreadOk(s', t)
  {
  }

  lemma StepKeepsInv<T>(s: Ring<T>, a: Action<T>)
    requires Inv(s)
    ensures Inv(Step(s, a)) == true
  {
    match a
    case StartPush(t, v) => if AtRest(s, t) { LocalStepKeepsInv(s, t, PushStart(v)); }
    case StartPop(t) => if AtRest(s, t) { LocalStepKeepsInv(s, t, PopStart); }
    case Advance(t, spurious) =>
      if t in s.pc {
        if HoldsTicket(s.pc[t]) {
          HolderStepKeepsInv(s, t, spurious);
        } else {
          CompetingStepKeepsInv(s, t, spurious);
        }
      }
  }

  // ---------------------------------------------------------------------------------
  // What holds in every run
  // ---------------------------------------------------------------------------------

  /** Every state reachable with a buffer of at least two slots satisfies the invariant. */
  lemma {:induction false} ReachableInv<T>(items: seq<T>, run: seq<Action<T>>)
    requires |items| >= 2
    ensures Inv(Exec(Init(items), run)) == true
    decreases |run|
  {
    if run == [] {
      InitInv(items);
    } else {
      ReachableInv(items, run[..|run| - 1]);
      StepKeepsInv(Exec(Init(items), run[..|run| - 1]), run[|run| - 1]);
    }
  }

  lemma InitInv<T>(items: seq<T>)
    requires |items| >= 2
    ensures Inv(Init(items)) == true
  {
  }

  /** Mutual exclusion on slots: in every reachable state a slot being written has one writer
      and no reader, a slot being read has one reader, and the indices stay a buffer apart. */
  lemma SlotsExclusive<T>(items: seq<T>, run: seq<Action<T>>, t: Tid, t': Tid, i: nat, j: nat)
    requires |items| >= 2
    ensures var s := Exec(Init(items), run);
            && s.readIndex <= s.writeIndex <= s.readIndex + |items|
            && (Producing(s, t, i) && Producing(s, t', j) && Idx(i, |items|) == Idx(j, |items|) ==> t == t' && i == j)
            && (Consuming(s, t, i) && Consuming(s, t', j) && Idx(i, |items|) == Idx(j, |items|) ==> t == t' && i == j)
            && !(Producing(s, t, i) && Consuming(s, t', j) && Idx(i, |items|) == Idx(j, |items|))
  {
    var s := Exec(Init(items), run);
    ReachableInv(items, run);
    if (Producing(s, t, i) || Consuming(s, t, i)) && (Producing(s, t', j) || Consuming(s, t', j)) {
      assert ThreadOk(s, t) == true && ThreadOk(s, t') == true;
      assert TicketOk(s, i) == true && TicketOk(s, j) == true;
      if i != j { WindowSlotsDistinct(s.writeIndex, |s.slots|, i, j); }
    }
  }

  // ---------------------------------------------------------------------------------
  // The ring is a queue
  // ---------------------------------------------------------------------------------

  /** The values with a write ticket and no read ticket, oldest first. */
  ghost function Queue<T>(s: Ring<T>): (q: seq<T>)
    requires s.readIndex <= |s.tickets|
    ensures |q| == |s.tickets| - s.readIndex
  {
    seq(|s.tickets| - s.readIndex, i requires 0 <= i < |s.tickets| - s.readIndex => s.tickets[s.readIndex + i].v)
  }

  /** Every step of every thread is, on the queue, an append of the winner's value, a removal
      of the head, or nothing; the indices say which. */
  lemma StepRefinesQueue<T>(s: Ring<T>, a: Action<T>)
    requires Inv(s)
    ensures Inv(Step(s, a)) == true
    ensures var s' := Step(s, a);
            var won := a.Advance? && a.t in s.pc && !a.spurious;
            if won && s.pc[a.t].PushCas? && s.pc[a.t].index == s.writeIndex then
              |Queue(s)| < |s.slots| && Queue(s') == Queue(s) + [s.pc[a.t].v]
            else if won && s.pc[a.t].PopCas? && s.pc[a.t].index == s.readIndex then
              Queue(s) != [] && Queue(s') == Queue(s)[1..]
            else
              Queue(s') == Queue(s)
  {
    StepKeepsInv(s, a);
    var s' := Step(s, a);
    StepKeepsTickets(s, a);
    if a.Advance? && a.t in s.pc && !a.spurious {
      var p := s.pc[a.t];
      if p.PushCas? && p.index == s.writeIndex {
        PushCasKeepsInv(s, s', a.t, p.v);
      } else if p.PopCas? && p.index == s.readIndex {
        PopCasKeepsInv(s, s', a.t);
      }
    }
  }

  /** Neither the value nor the winner of a write ticket ever changes. */
  lemma StepKeepsTickets<T>(s: Ring<T>, a: Action<T>)
    requires |s.slots| > 0
    ensures var s' := Step(s, a);
            |s.tickets| <= |s'.tickets| &&
            forall i: nat :: i < |s.tickets| ==>
              s'.tickets[i].v == s.tickets[i].v && s'.tickets[i].producer == s.tickets[i].producer
  {
  }

  lemma {:induction false} ExecKeepsTickets<T>(s: Ring<T>, run: seq<Action<T>>)
    requires Inv(s)
    ensures var s' := Exec(s, run);
            Inv(s') && |s.tickets| <= |s'.tickets| &&
            forall i: nat :: i < |s.tickets| ==>
              s'.tickets[i].v == s.tickets[i].v && s'.tickets[i].producer == s.tickets[i].producer
    decreases |run|
  {
    if run != [] {
      ExecKeepsTickets(s, run[..|run| - 1]);
      StepKeepsInv(Exec(s, run[..|run| - 1]), run[|run| - 1]);
      StepKeepsTickets(Exec(s, run[..|run| - 1]), run[|run| - 1]);
    }
  }

  /** A pop returns the value that was at the head of the queue when it won its ticket,
      whatever all threads do in between. */
  lemma PopReturnsHead<T>(items: seq<T>, before: seq<Action<T>>, t: Tid, after: seq<Action<T>>)
    requires |items| >= 2
    requires var s := Exec(Init(items), before);
             t in s.pc && s.pc[t] == PopCas(s.readIndex)
    ensures var s := Exec(Init(items), before);
            var s' := Exec(Step(s, Advance(t, false)), after);
            && Inv(s) && Queue(s) != []
            && (t in s'.pc && s'.pc[t].PopRelease? && s'.pc[t].index == s.readIndex ==>
                  && s'.pc[t].v == Queue(s)[0]
                  && Step(s', Advance(t, false)).pc[t] == PopDone(Some(Queue(s)[0])))
  {
    var s := Exec(Init(items), before);
    ReachableInv(items, before);
    StepRefinesQueue(s, Advance(t, false));
    StepKeepsTickets(s, Advance(t, false));
    var s1 := Step(s, Advance(t, false));
    ExecKeepsTickets(s1, after);
    var s' := Exec(s1, after);
    assert s'.tickets[s.readIndex].v == Queue(s)[0];
    if t in s'.pc && s'.pc[t].PopRelease? && s'.pc[t].index == s.readIndex { PopReturnsTicket(s', t); }
  }

  lemma PopReturnsTicket<T>(s: Ring<T>, t: Tid)
    requires Inv(s) && t in s.pc && s.pc[t].PopRelease?
    ensures s.pc[t].index < |s.tickets| && s.pc[t].v == s.tickets[s.pc[t].index].v
    ensures Step(s, Advance(t, false)).pc[t] == PopDone(Some(s.tickets[s.pc[t].index].v))
  {
    assert ThreadOk(s, t) == true;
  }

  /** push gives up exactly when the ticket it saw is still the next one and the value one
      buffer earlier has not been released. */
  lemma PushRefusalJustified<T>(items: seq<T>, run: seq<Action<T>>, t: Tid)
    requires |items| >= 2
    requires var s := Exec(Init(items), run); t in s.pc && s.pc[t].PushCheck?
    ensures var s := Exec(Init(items), run);
            var i := s.pc[t].index;
            Step(s, Advance(t, false)).pc[t] == PushDone(false) <==>
              i == s.writeIndex && |items| <= i && i - |items| < |s.tickets| && s.tickets[i - |items|].phase != Released
  {
    ReachableInv(items, run);
    StaleOrFull(Exec(Init(items), run), t);
  }

  lemma StaleOrFull<T>(s: Ring<T>, t: Tid)
    requires Inv(s) && t in s.pc && s.pc[t].PushCheck?
    ensures var i, n := s.pc[t].index, |s.slots|;
            SlotOf(s, i).counter < i <==>
              i == s.writeIndex && n <= i && i - n < |s.tickets| && s.tickets[i - n].phase != Released
  {
    var i := s.pc[t].index;
    assert ThreadOk(s, t) == true;
    if i < s.writeIndex {
      CounterReachedTicket(s, i);
    } else if i >= |s.slots| {
      NextSlot(s);
    }
  }

  /** Once a write ticket is won, the counter of its slot is at least the ticket number. */
  lemma CounterReachedTicket<T>(s: Ring<T>, i: nat)
    requires Inv(s) && i < s.writeIndex
    ensures SlotOf(s, i).counter >= i
    ensures i < s.readIndex ==> SlotOf(s, i).counter >= i + 1
    decreases s.writeIndex - i
  {
    assert TicketOk(s, i) == true;
    if s.writeIndex > i + |s.slots| {
      CounterReachedTicket(s, i + |s.slots|);
      assert SlotOf(s, i) == SlotOf(s, i + |s.slots|);
    }
  }

  /** pop gives up exactly when the ticket it saw is still the next one to read and no
      producer has published it. */
  lemma PopRefusalJustified<T>(items: seq<T>, run: seq<Action<T>>, t: Tid)
    requires |items| >= 2
    requires var s := Exec(Init(items), run); t in s.pc && s.pc[t].PopCheck?
    ensures var s := Exec(Init(items), run);
            var i := s.pc[t].index;
            Step(s, Advance(t, false)).pc[t] == PopDone(None) <==>
              i == s.readIndex && (i == s.writeIndex || (i < |s.tickets| && s.tickets[i].phase == Writing))
  {
    var s := Exec(Init(items), run);
    var i := s.pc[t].index;
    ReachableInv(items, run);
    assert ThreadOk(s, t) == true;
    if i < s.readIndex {
      CounterReachedTicket(s, i);
    } else {
      ReadSlotIsTicket(s);
    }
  }

  /** A one-slot buffer does not work: published and released counters coincide, so two
      pushes in a row succeed and the second overwrites the first. */
  lemma OneSlotOverflows<T>(item: T, x: T, y: T)
    ensures exists run :: var s := Exec(Init([item]), run);
              s.writeIndex == s.readIndex + 2 && s.slots == [Slot(2, y)]
              && s.tickets == [Ticket(x, 0, Full, 0), Ticket(y, 0, Full, 0)]
  {
    var s0 := Init([item]);
    var r1 := OnePush(s0, x);
    var r2 := OnePush(Exec(s0, r1), y);
    ExecConcat(s0, r1, r2);
    assert Exec(s0, r1 + r2).writeIndex == 2;
  }

  /** With one slot, a push by thread 0 always wins, whether or not the slot was read. */
  lemma OnePush<T>(s: Ring<T>, v: T) returns (run: seq<Action<T>>)
    requires |s.slots| == 1 && AtRest(s, 0) && s.slots[0].counter == s.writeIndex == |s.tickets|
    ensures Exec(s, run) ==
              s.(slots := [Slot(s.writeIndex + 1, v)], writeIndex := s.writeIndex + 1,
                 tickets := s.tickets + [Ticket(v, 0, Full, 0)], pc := s.pc[0 := PushDone(true)])
  {
    run := [];
    var go: Action<T> := Advance(0, false);
    var w := s.writeIndex;
    var s2 := s.(pc := s.pc[0 := PushCheck(v, w)]);
    var s3 := s.(pc := s.pc[0 := PushCas(v, w)]);
    var s4 := s.(pc := s.pc[0 := PushWrite(v, w)], writeIndex := w + 1, tickets :=
                 s.tickets + [Ticket(v, 0, Writing, 0)]);
    assert Step(Step(s, StartPush(0, v)), go) == s2;
    assert Step(s2, go) == s3;
    assert Step(s3, go) == s4;
    OnePushWrites(s, s4, v);
    ExecSnoc(s, run, StartPush(0, v)); run := run + [StartPush(0, v)];
    ExecSnoc(s, run, go); run := run + [go];
    ExecSnoc(s, run, go); run := run + [go];
    ExecSnoc(s, run, go); run := run + [go];
    ExecSnoc(s, run, go); run := run + [go];
    ExecSnoc(s, run, go); run := run + [go];
  }

  lemma OnePushWrites<T>(s: Ring<T>, s4: Ring<T>, v: T)
    requires |s.slots| == 1 && s.slots[0].counter == s.writeIndex == |s.tickets|
    requires s4 == s.(pc := s.pc[0 := PushWrite(v, s.writeIndex)], writeIndex := s.writeIndex + 1,
                      tickets := s.tickets + [Ticket(v, 0, Writing, 0)])
    ensures Step(Step(s4, Advance(0, false)), Advance(0, false)) ==
              s.(slots := [Slot(s.writeIndex + 1, v)], writeIndex := s.writeIndex + 1,
                 tickets := s.tickets + [Ticket(v, 0, Full, 0)], pc := s.pc[0 := PushDone(true)])
  {
    var s5 := Step(s4, Advance(0, false));
    assert s5 == s4.(slots := [Slot(s.writeIndex, v)], pc := s.pc[0 := PushPublish(v, s.writeIndex)]);
    assert Mark(s5.tickets, s.writeIndex, Full, 0) == s.tickets + [Ticket(v, 0, Full, 0)];
  }

  lemma ExecSnoc<T>(s: Ring<T>, run: seq<Action<T>>, a: Action<T>)
    requires |s.slots| > 0
    ensures Exec(s, run + [a]) == Step(Exec(s, run), a)
  {
    assert (run + [a])[..|run|] == run;
  }

  lemma {:induction false} ExecConcat<T>(s: Ring<T>, r1: seq<Action<T>>, r2: seq<Action<T>>)
    requires |s.slots| > 0
    ensures Exec(s, r1 + r2) == Exec(Exec(s, r1), r2)
    decreases |r2|
  {
    if r2 == [] {
      assert r1 + r2 == r1;
    } else {
      ExecConcat(s, r1, r2[..|r2| - 1]);
      assert (r1 + r2)[..|r1 + r2| - 1] == r1 + r2[..|r2| - 1];
    }
  }
}
