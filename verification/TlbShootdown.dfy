/** The TLB shootdown mailbox of one CPU (kernel/paging.cpp): any number of senders put requests into a ring of
    64 slots under a spin lock; the interrupt handler of the CPU takes them out and reads a slot only after
    it has released the lock. A step is one critical section, or what the handler does between two. */
module TlbShootdown {

  /** g_defaultTlbRingBufferSize. */
  const RING := 64

  datatype Item = Item(addr: int, size: int)

  /** What the handler does outside the lock: nothing; flush everything; flush the item in a slot, which is the
      request with the given number; or come back for the next item. */
  datatype Handler = Idle | Full | Reading(slot: int, id: int) | Draining

  datatype Flush = One(item: Item) | All

  /** Where a request is. A flushed one knows the entry of the log that flushed it. */
  datatype Status = Queued(pos: int) | Taken | Pending | InFull | Flushed(at: int)

  /** `read`, `write`, `items` and `needFull` are the fields of `CpuTlbShootdownTask`, `ipi` tells whether an
      interrupt is outstanding. The rest is history: the flushes so far, and for every request its item, the flushes
      before it and where it is. */
  datatype State = State(
    items: seq<Item>, read: nat, write: nat, needFull: bool, ipi: bool, handler: Handler,
    log: seq<Flush>, requests: seq<Item>, sentAt: seq<nat>, status: seq<Status>, queue: seq<int>)

  function Init(items: seq<Item>): State
  {
    State(items, 0, 0, false, false, Idle, [], [], [], [], [])
  }

  /** A sender's critical section, and what the handler does next. */
  datatype Action = Send(item: Item, full: bool) | Handle

  // ---------------------------------------------------------------------------------
  // Senders
  // ---------------------------------------------------------------------------------

  /** Everything in the queue is now covered by the pending full flush. */
  function AllPending(status: seq<Status>): seq<Status>
  {
    seq(|status|, i requires 0 <= i < |status| => if status[i].Queued? then Pending else status[i])
  }

  /** The sender falls back to a full flush. */
  predicate Resets(s: State, full: bool)
  {
    !s.needFull && ((s.write - s.read) % RING == RING - 1 || full)
  }

  function SendStep(s: State, item: Item, full: bool): State
    requires |s.items| == RING
  {
    var s1 := s.(requests := s.requests + [item], sentAt := s.sentAt + [|s.log|]);
    if s.needFull then s1.(status := s.status + [Pending])
    else
      var oldItems := (s.write - s.read) % RING;
      var ipi := s.ipi || oldItems == 0;
      if Resets(s, full) then
        s1.(read := 0, write := 0, needFull := true, ipi := ipi, queue := [], status :=
            AllPending(s.status) + [Pending])
      else
        s1.(items := s.items[s.write % RING := item], write := s.write + 1, ipi := ipi,
            queue := s.queue + [|s.requests|], status := s.status + [Queued(s.write)])
  }

  // ---------------------------------------------------------------------------------
  // The handler
  // ---------------------------------------------------------------------------------

  /** With the lock held: takes the next item, or leaves. */
  function TakeNext(s: State): State
  {
    if s.read != s.write && s.queue != [] && 0 <= s.queue[0] < |s.status| then
      s.(handler := Reading(s.read % RING, s.queue[0]), read := s.read + 1, queue := s.queue[1..],
         status := s.status[s.queue[0] := Taken])
    else s.(handler := Idle)
  }

  function PendingToFull(status: seq<Status>): seq<Status>
  {
    seq(|status|, i requires 0 <= i < |status| => if status[i].Pending? then InFull else status[i])
  }

  function FullToFlushed(status: seq<Status>, at: int): seq<Status>
  {
    seq(|status|, i requires 0 <= i < |status| => if status[i].InFull? then Flushed(at) else status[i])
  }

  function HandleStep(s: State): State
    requires |s.items| == RING
  {
    match s.handler
    case Idle =>
      if !s.ipi then s
      else if s.needFull then s.(ipi := false, needFull := false, handler := Full, status := PendingToFull(s.status))
      else TakeNext(s.(ipi := false))
    case Full =>
      s.(handler := Idle, log := s.log + [All], status := FullToFlushed(s.status, |s.log|))
    case Reading(slot, id) =>
      s.(handler := Draining,
         log := s.log + [One(if 0 <= slot < RING then s.items[slot] else Item(0, 0))],
         status := if 0 <= id < |s.status| then s.status[id := Flushed(|s.log|)] else s.status)
    case Draining => TakeNext(s)
  }

  function Step(s: State, a: Action): State
    requires |s.items| == RING
  {
    match a
    case Send(item, full) => SendStep(s, item, full)
    case Handle => HandleStep(s)
  }

  function Exec(s: State, run: seq<Action>): State
    requires |s.items| == RING
    ensures |Exec(s, run).items| == RING
    decreases |run|
  {
    if run == [] then s else Exec(Step(s, run[0]), run[1..])
  }

  // ---------------------------------------------------------------------------------
  // Invariant
  // ---------------------------------------------------------------------------------

  /** A request is flushed, after it was sent and over its whole range; or in the queue; or taken by the handler; or
      covered by a full flush that is pending or running. */
  ghost predicate RequestOk(s: State, id: int)
    requires 0 <= id < |s.status| == |s.requests| == |s.sentAt|
  {
    match s.status[id]
    case Queued(pos) => s.read <= pos < s.write && pos - s.read < |s.queue| && s.queue[pos - s.read] == id
    case Taken => s.handler.Reading? && s.handler.id == id
    case Pending => s.needFull
    case InFull => s.handler.Full?
    case Flushed(at) => s.sentAt[id] <= at < |s.log| && (s.log[at] == All || s.log[at] == One(s.requests[id]))
  }

  ghost predicate SentOk(s: State, id: int)
    requires 0 <= id < |s.sentAt|
  {
    s.sentAt[id] <= |s.log|
  }

  /** The slot of a queued request holds its item. */
  ghost predicate QueueOk(s: State, k: int)
    requires 0 <= k < |s.queue| && |s.items| == RING
  {
    var id := s.queue[k];
    && 0 <= id < |s.status| && id < |s.requests| && s.status[id] == Queued(s.read + k)
    && s.items[(s.read + k) % RING] == s.requests[id]
  }

  /** So does the slot the handler is about to read, and no sender can write it before it is read. */
  ghost predicate ReadingOk(s: State)
    requires |s.items| == RING
  {
    s.handler.Reading? ==>
      var id := s.handler.id;
      && 0 <= s.handler.slot < RING && 0 <= id < |s.status| && id < |s.requests| && s.status[id] == Taken
      && s.items[s.handler.slot] == s.requests[id]
      && (s.needFull || (s.read >= 1 && s.handler.slot == (s.read - 1) % RING))
  }

  ghost predicate Inv(s: State)
  {
    && |s.items| == RING && |s.status| == |s.requests| == |s.sentAt|
    && s.read <= s.write && s.write - s.read == |s.queue| <= RING - 1
    && (s.needFull ==> s.queue == [])
    && (forall id {:trigger RequestOk(s, id)} :: 0 <= id < |s.status| ==> RequestOk(s, id))
    && (forall id {:trigger SentOk(s, id)} :: 0 <= id < |s.sentAt| ==> SentOk(s, id))
    && (forall k {:trigger QueueOk(s, k)} :: 0 <= k < |s.queue| ==> QueueOk(s, k))
    && ReadingOk(s)
  }

  lemma SendKeepsInv(s: State, item: Item, full: bool)
    requires Inv(s)
    ensures Inv(SendStep(s, item, full)) == true
  {
    var s' := SendStep(s, item, full);
    forall id | 0 <= id < |s'.status| ensures RequestOk(s', id) == true {
      if id < |s.status| { assert RequestOk(s, id) == true; }
    }
    forall id | 0 <= id < |s'.sentAt| ensures SentOk(s', id) == true {
      if id < |s.sentAt| { assert SentOk(s, id) == true; }
    }
    SendKeepsQueue(s, item, full);
  }

  lemma SendKeepsQueue(s: State, item: Item, full: bool)
    requires Inv(s)
    ensures forall k {:trigger QueueOk(SendStep(s, item, full), k)} :: 0 <= k < |SendStep(s, item, full).queue| ==>
            QueueOk(SendStep(s, item, full), k)
    ensures ReadingOk(SendStep(s, item, full)) == true
  {
    var s' := SendStep(s, item, full);
    assert (s.write - s.read) % RING == s.write - s.read;
    forall k | 0 <= k < |s'.queue| ensures QueueOk(s', k) == true {
      if k < |s.queue| {
        assert QueueOk(s, k) == true;
        SlotsDiffer(s.read + k, s.write);
      }
    }
    if s.handler.Reading? && !s'.needFull { SlotsDiffer(s.read - 1, s.write); }
  }

  lemma SlotsDiffer(a: nat, b: nat)
    requires a < b <= a + 63
    ensures a % RING != b % RING
  {
  }

  lemma TakeKeepsInv(s: State)
    requires Inv(s) && !s.handler.Reading? && !s.handler.Full?
    ensures Inv(TakeNext(s)) == true
  {
    var s' := TakeNext(s);
    if s.queue != [] { assert QueueOk(s, 0) == true; }
    forall id | 0 <= id < |s'.status| ensures RequestOk(s', id) == true { assert RequestOk(s, id) == true; }
    forall id | 0 <= id < |s'.sentAt| ensures SentOk(s', id) == true { assert SentOk(s, id) == true; }
    forall k | 0 <= k < |s'.queue| ensures QueueOk(s', k) == true {
      if s.queue != [] { assert QueueOk(s, k + 1) == true; }
    }
  }

  lemma ReadKeepsInv(s: State)
    requires Inv(s) && s.handler.Reading?
    ensures Inv(HandleStep(s)) == true
  {
    var s' := HandleStep(s);
    forall id | 0 <= id < |s'.status| ensures RequestOk(s', id) == true {
      assert RequestOk(s, id) == true && SentOk(s, id) == true;
    }
    forall id | 0 <= id < |s'.sentAt| ensures SentOk(s', id) == true { assert SentOk(s, id) == true; }
    forall k | 0 <= k < |s'.queue| ensures QueueOk(s', k) == true { assert QueueOk(s, k) == true; }
  }

  lemma HandleKeepsInv(s: State)
    requires Inv(s)
    ensures Inv(HandleStep(s)) == true
  {
    var s' := HandleStep(s);
    if s.handler.Draining? {
      TakeKeepsInv(s);
    } else if s.handler.Idle? && s.ipi && !s.needFull {
      var s1 := s.(ipi := false);
      forall id | 0 <= id < |s1.status| ensures RequestOk(s1, id) == true { assert RequestOk(s, id) == true; }
      forall id | 0 <= id < |s1.sentAt| ensures SentOk(s1, id) == true { assert SentOk(s, id) == true; }
      forall k | 0 <= k < |s1.queue| ensures QueueOk(s1, k) == true { assert QueueOk(s, k) == true; }
      TakeKeepsInv(s1);
    } else if s.handler.Reading? {
      ReadKeepsInv(s);
    } else {
      forall id | 0 <= id < |s'.status| ensures RequestOk(s', id) == true {
        assert RequestOk(s, id) == true && SentOk(s, id) == true;
      }
      forall id | 0 <= id < |s'.sentAt| ensures SentOk(s', id) == true { assert SentOk(s, id) == true; }
      forall k | 0 <= k < |s'.queue| ensures QueueOk(s', k) == true { assert QueueOk(s, k) == true; }
    }
  }

  lemma {:induction false} ReachableInv(s: State, run: seq<Action>)
    requires Inv(s)
    ensures Inv(Exec(s, run)) == true
    decreases |run|
  {
    if run != [] {
      match run[0] {
        case Send(item, full) => SendKeepsInv(s, item, full);
        case Handle => HandleKeepsInv(s);
      }
      ReachableInv(Step(s, run[0]), run[1..]);
    }
  }

  // ---------------------------------------------------------------------------------
  // What holds in every run
  // ---------------------------------------------------------------------------------

  lemma InitInv(items: seq<Item>)
    requires |items| == RING
    ensures Inv(Init(items)) == true
  {
  }

  /** No request is dropped: in every reachable state it is flushed, queued, taken, or covered by a full flush. */
  lemma NoRequestDropped(items: seq<Item>, run: seq<Action>, id: int)
    requires |items| == RING
    ensures var s := Exec(Init(items), run);
            && |s.status| == |s.requests| == |s.sentAt| && s.read <= s.write <= s.read + 63
            && (0 <= id < |s.requests| ==> RequestOk(s, id))
  {
    InitInv(items);
    ReachableInv(Init(items), run);
    var s := Exec(Init(items), run);
    if 0 <= id < |s.requests| { assert RequestOk(s, id) == true; }
  }

  /** No sender writes the slot the handler is about to read, so the handler flushes what was requested. */
  lemma SlotIsSafe(s: State, item: Item, full: bool)
    requires Inv(s) && s.handler.Reading?
    ensures 0 <= s.handler.slot < RING && SendStep(s, item, full).items[s.handler.slot] == s.items[s.handler.slot]
    ensures SendStep(s, item, full).handler == s.handler
    ensures 0 <= s.handler.id < |s.requests| && HandleStep(s).log == s.log + [One(s.requests[s.handler.id])]
  {
  }

  /** The first n requests are flushed, each after it was sent and over its whole range. */
  ghost predicate AllFlushed(s: State, n: int)
  {
    && n <= |s.status| == |s.requests| == |s.sentAt|
    && forall id {:trigger s.status[id]} :: 0 <= id < n ==>
         && s.status[id].Flushed? && s.sentAt[id] <= s.status[id].at < |s.log|
         && (s.log[s.status[id].at] == All || s.log[s.status[id].at] == One(s.requests[id]))
  }

  lemma QuietIsFlushed(s: State)
    requires Inv(s) && s.handler.Idle? && !s.needFull && s.read == s.write
    ensures AllFlushed(s, |s.requests|) == true
  {
    forall id | 0 <= id < |s.requests| ensures s.status[id].Flushed? && RequestOk(s, id) {
      assert RequestOk(s, id) == true;
    }
  }

  /** When the handler is idle and the mailbox is empty, every request was flushed after it was sent. */
  lemma QuietMeansFlushed(items: seq<Item>, run: seq<Action>)
    requires |items| == RING
    ensures var s := Exec(Init(items), run);
            s.handler.Idle? && !s.needFull && s.read == s.write ==> AllFlushed(s, |s.requests|) == true
  {
    InitInv(items);
    ReachableInv(Init(items), run);
    var s := Exec(Init(items), run);
    if s.handler.Idle? && !s.needFull && s.read == s.write { QuietIsFlushed(s); }
  }

  // ---------------------------------------------------------------------------------
  // Interrupts
  // ---------------------------------------------------------------------------------

  /** An interrupt is outstanding for whatever the handler is not already going to find. */
  ghost predicate Announced(s: State)
  {
    (s.needFull ==> s.ipi) && (s.read != s.write ==> s.ipi || s.handler.Reading? || s.handler.Draining?)
  }

  /** This is kept, except when a sender falls back to a full flush while the handler drains a queue that is not
      empty. */
  lemma StepAnnounced(s: State, a: Action)
    requires Inv(s) && Announced(s)
    ensures Announced(Step(s, a)) <==> !(a.Send? && Resets(s, a.full) && s.read != s.write && !s.ipi)
  {
    if s.queue != [] { assert QueueOk(s, 0) == true; }
  }

  // With an interrupt outstanding the handler alone gets everything flushed

  /** What is left to do for the handler. */
  function Left(s: State): nat
  {
    3 * |s.queue| + (if s.needFull then 1 else 0) + (if s.ipi then 1 else 0)
    + match s.handler case Idle => 0 case Full => 1 case Draining => 1 case Reading(_, _) => 2
  }

  lemma HandleGoesOn(s: State)
    requires Inv(s) && Announced(s)
    ensures Inv(HandleStep(s)) && Announced(HandleStep(s)) && HandleStep(s).requests == s.requests
    ensures Left(s) > 0 ==> Left(HandleStep(s)) < Left(s)
  {
    HandleKeepsInv(s);
    StepAnnounced(s, Handle);
    if s.queue != [] { assert QueueOk(s, 0) == true; }
  }

  function Handles(n: nat): seq<Action> { seq(n, _ => Handle) }

  lemma {:induction false} HandlerDrains(s: State, n: nat)
    requires Inv(s) && Announced(s) && Left(s) <= n
    ensures var s' := Exec(s, Handles(n));
            Inv(s') && s'.requests == s.requests && s'.handler.Idle? && !s'.needFull && s'.read == s'.write
    decreases n
  {
    if n > 0 {
      HandleGoesOn(s);
      assert Handles(n)[1..] == Handles(n - 1);
      HandlerDrains(HandleStep(s), n - 1);
    }
  }

  /** No sender of the run falls back to a full flush while the handler drains a queue that is not empty. */
  ghost predicate Harmless(s: State, run: seq<Action>)
    requires |s.items| == RING
    decreases |run|
  {
    run == [] ||
    (!(run[0].Send? && Resets(s, run[0].full) && s.read != s.write && !s.ipi) && Harmless(Step(s, run[0]), run[1..]))
  }

  lemma {:induction false} RunAnnounced(s: State, run: seq<Action>)
    requires Inv(s) && Announced(s) && Harmless(s, run)
    ensures Inv(Exec(s, run)) && Announced(Exec(s, run))
    decreases |run|
  {
    if run != [] {
      StepAnnounced(s, run[0]);
      match run[0] {
        case Send(item, full) => SendKeepsInv(s, item, full);
        case Handle => HandleKeepsInv(s);
      }
      RunAnnounced(Step(s, run[0]), run[1..]);
    }
  }

  /** Every request gets flushed: after any such run, 193 steps of the handler suffice for all that were sent. */
  lemma EveryRequestFlushed(items: seq<Item>, run: seq<Action>, n: nat)
    requires |items| == RING && Harmless(Init(items), run) && n >= 193
    ensures var s, s' := Exec(Init(items), run), Exec(Exec(Init(items), run), Handles(n));
            s'.requests == s.requests && AllFlushed(s', |s.requests|) == true
  {
    InitInv(items);
    RunAnnounced(Init(items), run);
    HandlerDrains(Exec(Init(items), run), n);
    QuietIsFlushed(Exec(Exec(Init(items), run), Handles(n)));
  }

  /** A request waits for a full flush that no interrupt announces. */
  ghost predicate Stranded(s: State, id: int)
  {
    Inv(s) && s.needFull && !s.ipi && 0 <= id < |s.status| && s.status[id] == Pending
  }

  /** It does so for ever, whatever senders and handler do. */
  lemma {:induction false} StrandedForever(s: State, run: seq<Action>, id: int)
    requires Stranded(s, id)
    ensures Stranded(Exec(s, run), id) == true
    decreases |run|
  {
    if run != [] {
      match run[0] {
        case Send(item, full) => SendKeepsInv(s, item, full);
        case Handle => HandleKeepsInv(s);
      }
      StrandedForever(Step(s, run[0]), run[1..], id);
    }
  }

  /** Any other run strands a request: that of the sender that fell back to a full flush. */
  lemma {:induction false} HarmStrands(s: State, run: seq<Action>) returns (id: int)
    requires Inv(s) && !Harmless(s, run)
    ensures Stranded(Exec(s, run), id) == true
    decreases |run|
  {
    var s1 := Step(s, run[0]);
    match run[0] {
      case Send(item, full) => SendKeepsInv(s, item, full);
      case Handle => HandleKeepsInv(s);
    }
    if Harmless(s1, run[1..]) {
      id := |s.status|;
      StrandedForever(s1, run[1..], id);
    } else {
      id := HarmStrands(s1, run[1..]);
    }
  }

  /** Some continuation gets everything flushed that was sent so far. */
  ghost predicate GetsFlushed(s: State)
    requires |s.items| == RING
  {
    exists more {:trigger Exec(s, more)} :: AllFlushed(Exec(s, more), |s.requests|)
  }

  /** The requests of a run get flushed if and only if the run is harmless, and then the handler alone gets them
      flushed. */
  lemma FlushedIfHarmless(items: seq<Item>, run: seq<Action>)
    requires |items| == RING
    ensures GetsFlushed(Exec(Init(items), run)) <==> Harmless(Init(items), run)
    ensures GetsFlushed(Exec(Init(items), run)) ==>
              AllFlushed(Exec(Exec(Init(items), run), Handles(193)), |Exec(Init(items), run).requests|)
  {
    InitInv(items);
    var s := Exec(Init(items), run);
    if Harmless(Init(items), run) {
      EveryRequestFlushed(items, run, 193);
    } else {
      var id := HarmStrands(Init(items), run);
      forall more ensures !AllFlushed(Exec(s, more), |s.requests|) {
        StrandedForever(s, more, id);
        assert Exec(s, more).status[id] == Pending;
      }
    }
  }

  /** Once the handler is idle in such a state, nothing at all is flushed any more. */
  lemma {:induction false} StuckForever(s: State, run: seq<Action>)
    requires |s.items| == RING && s.needFull && s.handler.Idle? && !s.ipi
    ensures var s' := Exec(s, run); s'.log == s.log && s'.needFull && s'.handler.Idle? && !s'.ipi
    decreases |run|
  {
    if run != [] { StuckForever(Step(s, run[0]), run[1..]); }
  }

  /** Two requests, the handler takes the first, a full request comes, the handler finishes. */
  lemma InterruptLost(items: seq<Item>, a: Item, b: Item, c: Item)
    requires |items| == RING
    ensures var s := Exec(Init(items), [Send(a, false), Send(b, false), Handle, Send(c, true), Handle, Handle]);
            s.needFull && s.handler.Idle? && !s.ipi && s.log == [One(a)]
  {
    var s1 := SendStep(Init(items), a, false);
    var s2 := SendStep(s1, b, false);
    var s3 := HandleStep(s2);
    assert s3.handler == Reading(0, 0) && s3.items[0] == a;
    var s4 := SendStep(s3, c, true);
    var s5 := HandleStep(s4);
    var s6 := HandleStep(s5);
    Unroll(Init(items), Send(a, false), [Send(b, false), Handle, Send(c, true), Handle, Handle]);
    Unroll(s1, Send(b, false), [Handle, Send(c, true), Handle, Handle]);
    Unroll(s2, Handle, [Send(c, true), Handle, Handle]);
    Unroll(s3, Send(c, true), [Handle, Handle]);
    Unroll(s4, Handle, [Handle]);
    Unroll(s5, Handle, []);
  }

  lemma Unroll(s: State, a: Action, rest: seq<Action>)
    requires |s.items| == RING
    ensures Exec(s, [a] + rest) == Exec(Step(s, a), rest)
  {
    assert ([a] + rest)[1..] == rest;
  }
}
