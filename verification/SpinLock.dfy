/** The queued spin lock of kernel/SpinLock.cpp, whose queue nodes come from per-CPU pools
    and are reused, as a transition system.

    An agent is one `lock() ... unlock()` (or failing `try_lock()`) in progress. A CPU that
    holds several locks, or is interrupted inside one, is several agents, so any number of
    agents, CPUs, pools and locks interleave freely. Every access to an entry or to the tail
    is one step. */
module SpinLock {

  type AgentId = nat

  /** `LocalCpuSpinsData::LimitAlign`: entries per pool. */
  const POOL_SIZE := 128

  /** A null `QueuedSpinLockEntry*`. */
  const NULL := 0

  datatype Entry = Entry(next: nat, state: bool, use: bool)

  /** A lock, and the history of its tail exchanges: `arrived` lists the agents in the order
      of their exchanges, and the first `served` of them have passed the lock on. */
  datatype Lock = Lock(tail: nat, lastLockEntry: nat, arrived: seq<AgentId>, served: nat)

  /** Program points: each names the access that comes next. */
  datatype Stage =
    | Rest | Scan | ClearNext | SetState | Exchange
    | Link | Spin | Record
    | Critical | ReadLast | CasTail | ReadNext | Grant | Retire
    | Panicked

  /** `l` is the lock, `e` the agent's entry, `x` the entry pointer read last (`cur` in lock,
      `p` in unlock), `k` the agent's position in `arrived`. */
  datatype Agent = Agent(stage: Stage, l: nat, trying: bool, cpu: nat, tries: nat, e: nat, x: nat, k: nat)

  /** `owner` is history: the agent that took an entry and has not freed it. */
  datatype System = System(
    entries: map<nat, Entry>,
    counts: map<nat, nat>,
    locks: map<nat, Lock>,
    agents: map<AgentId, Agent>,
    owner: map<nat, AgentId>)

  datatype Action =
    | Start(a: AgentId, l: nat, trying: bool, cpu: nat)
    | Leave(a: AgentId)
    | Advance(a: AgentId, spurious: bool)

  /** The address of entry i of a CPU's pool. */
  function EntryAt(cpu: nat, i: nat): nat { 1 + cpu * 128 + i }

  function Count(s: System, cpu: nat): nat { if cpu in s.counts then s.counts[cpu] else 0 }

  function Step(s: System, act: Action): (s': System)
  {
    match act
    case Start(a, l, trying, cpu) =>
      if (a in s.agents ==> s.agents[a].stage == Rest) && l in s.locks then
        s.(agents := s.agents[a := Agent(Scan, l, trying, cpu, 0, NULL, NULL, 0)])
      else s
    case Leave(a) =>
      if a in s.agents && s.agents[a].stage == Critical then
        s.(agents := s.agents[a := s.agents[a].(stage := ReadLast)])
      else s
    case Advance(a, spurious) =>
      if a in s.agents then AdvanceAgent(s, a, s.agents[a], spurious) else s
  }

  function Move(s: System, a: AgentId, ag: Agent): System { s.(agents := s.agents[a := ag]) }

  function AdvanceAgent(s: System, a: AgentId, ag: Agent, spurious: bool): (s': System)
  {
    match ag.stage
    case Scan => ScanStep(s, a, ag, spurious)
    case ClearNext =>
      if ag.e in s.entries then
        Move(s.(entries := s.entries[ag.e := s.entries[ag.e].(next := NULL)]), a, ag.(stage := SetState))
      else s
    case SetState =>
      if ag.e in s.entries then
        Move(s.(entries := s.entries[ag.e := s.entries[ag.e].(state := true)]), a, ag.(stage := Exchange))
      else s
    case Exchange => if ag.trying then TryStep(s, a, ag) else ExchangeStep(s, a, ag)
    case Link =>
      if ag.x in s.entries then
        Move(s.(entries := s.entries[ag.x := s.entries[ag.x].(next := ag.e)]), a, ag.(stage := Spin))
      else s
    case Spin =>
      if ag.e in s.entries && !s.entries[ag.e].state then Move(s, a, ag.(stage := Record)) else s
    case Record =>
      if ag.l in s.locks then
        Move(s.(locks := s.locks[ag.l := s.locks[ag.l].(lastLockEntry := ag.e)]), a, ag.(stage := Critical))
      else s
    case ReadLast =>
      if ag.l in s.locks then Move(s, a, ag.(stage := CasTail, e := s.locks[ag.l].lastLockEntry)) else s
    case CasTail => CasTailStep(s, a, ag)
    case ReadNext =>
      if ag.e in s.entries && s.entries[ag.e].next != NULL then
        Move(s, a, ag.(stage := Grant, x := s.entries[ag.e].next))
      else s
    case Grant => GrantStep(s, a, ag)
    case Retire =>
      if ag.e in s.entries then
        Move(s.(entries := s.entries[ag.e := s.entries[ag.e].(use := false)], owner := s.owner - {ag.e}),
             a, ag.(stage := Rest))
      else s
    case _ => s
  }

  /** One round of `allocSpinEntry`: the next entry of the pool, if it is not in use. */
  function ScanStep(s: System, a: AgentId, ag: Agent, spurious: bool): (s': System)
  {
    if ag.tries >= POOL_SIZE then Move(s, a, ag.(stage := Panicked))
    else
      var c := Count(s, ag.cpu) + 1;
      var e := EntryAt(ag.cpu, c % 128);
      var s1 := s.(counts := s.counts[ag.cpu := c]);
      if e in s.entries && !s.entries[e].use && !spurious then
        Move(s1.(entries := s.entries[e := s.entries[e].(use := true)], owner := s.owner[e := a]),
             a, ag.(stage := ClearNext, e := e))
      else
        Move(s1, a, ag.(tries := ag.tries + 1))
  }

  function ExchangeStep(s: System, a: AgentId, ag: Agent): (s': System)
  {
    if ag.l !in s.locks then s
    else
      var lk := s.locks[ag.l];
      var ag' := ag.(stage := if lk.tail == NULL then Record else Link, x := lk.tail, k := |lk.arrived|);
      Move(s.(locks := s.locks[ag.l := lk.(tail := ag.e, arrived := lk.arrived + [a])]), a, ag')
  }

  /** The compare-and-exchange of `try_lock` when it fails. The model has no success path:
      an agent whose exchange would succeed waits. */
  function TryStep(s: System, a: AgentId, ag: Agent): (s': System)
  {
    if ag.l in s.locks && s.locks[ag.l].tail != NULL then Move(s, a, ag.(stage := Retire)) else s
  }

  function CasTailStep(s: System, a: AgentId, ag: Agent): (s': System)
  {
    if ag.l !in s.locks then s
    else
      var lk := s.locks[ag.l];
      if lk.tail == ag.e then
        Move(s.(locks := s.locks[ag.l := lk.(tail := NULL, served := lk.served + 1)]), a, ag.(stage := Retire))
      else
        Move(s, a, ag.(stage := ReadNext))
  }

  function GrantStep(s: System, a: AgentId, ag: Agent): (s': System)
  {
    if ag.x !in s.entries || ag.l !in s.locks then s
    else
      var lk := s.locks[ag.l];
      Move(s.(entries := s.entries[ag.x := s.entries[ag.x].(state := false)],
              locks := s.locks[ag.l := lk.(served := lk.served + 1)]), a, ag.(stage := Retire))
  }

  function Exec(s: System, run: seq<Action>): (s': System)
    decreases |run|
  {
    if run == [] then s else Step(Exec(s, run[..|run| - 1]), run[|run| - 1])
  }

  // ---------------------------------------------------------------------------------
  // The invariant
  // ---------------------------------------------------------------------------------

  /** The agent is between its tail exchange and passing the lock on. */
  predicate Queued(st: Stage)
  {
    st.Link? || st.Spin? || Holds(st)
  }

  /** The agent owns an entry. */
  predicate HasEntry(st: Stage)
  {
    Queued(st) || st.ClearNext? || st.SetState? || st.Exchange? || st.Retire?
  }

  /** Only the first of the queue gets this far. */
  predicate Holds(st: Stage)
  {
    st.Record? || st.Critical? || st.ReadLast? || st.CasTail? || st.ReadNext? || st.Grant?
  }

  /** An agent's entry is its own, and an agent in a queue knows its place there. */
  ghost predicate AgentOk(s: System, a: AgentId)
    requires a in s.agents
  {
    var ag := s.agents[a];
    && (HasEntry(ag.stage) ==>
          && ag.e != NULL && ag.e in s.entries && s.entries[ag.e].use
          && ag.e in s.owner && s.owner[ag.e] == a)
    && (ag.stage.SetState? || ag.stage.Exchange? ==> s.entries[ag.e].next == NULL)
    && (ag.stage == Exchange ==> s.entries[ag.e].state)
    && (Queued(ag.stage) ==>
          && ag.l in s.locks && s.locks[ag.l].served <= ag.k < |s.locks[ag.l].arrived|
          && s.locks[ag.l].arrived[ag.k] == a)
  }

  /** An entry in use has an owner that knows it; other entries have none. */
  ghost predicate EntryOk(s: System, e: nat)
    requires e in s.entries
  {
    && e != NULL
    && (s.entries[e].use <==> e in s.owner)
    && (e in s.owner ==> s.owner[e] in s.agents && HasEntry(s.agents[s.owner[e]].stage) && s.agents[s.owner[e]].e == e)
  }

  /** The agent at position k of lock l's queue and its links to its neighbours. */
  ghost predicate PlaceOk(s: System, l: nat, k: nat)
    requires l in s.locks && s.locks[l].served <= k < |s.locks[l].arrived|
  {
    var lk := s.locks[l];
    var a := lk.arrived[k];
    && a in s.agents && s.agents[a].l == l && s.agents[a].k == k && Queued(s.agents[a].stage)
    && s.agents[a].e in s.entries
    && var ag := s.agents[a];
       && (k == lk.served ==> Holds(ag.stage) || (ag.stage == Spin && !s.entries[ag.e].state))
       && (k > lk.served ==> (ag.stage == Link || ag.stage == Spin) && s.entries[ag.e].state)
       && (Holds(ag.stage) && !ag.stage.Record? ==> lk.lastLockEntry == ag.e)
       && (k + 1 == |lk.arrived| ==>
             ag.e == lk.tail && s.entries[ag.e].next == NULL && ag.stage != ReadNext && ag.stage != Grant)
  }

  /** Neighbours k and k + 1: the later one is about to link itself to the earlier one, or has. */
  ghost predicate PairOk(s: System, l: nat, k: nat)
    requires l in s.locks && s.locks[l].served <= k && k + 1 < |s.locks[l].arrived|
  {
    var a, b := s.locks[l].arrived[k], s.locks[l].arrived[k + 1];
    && a in s.agents && b in s.agents && s.agents[a].e in s.entries
    && var ag, bg := s.agents[a], s.agents[b];
       && (bg.stage == Link ==> bg.x == ag.e && s.entries[ag.e].next == NULL)
       && (bg.stage != Link ==> s.entries[ag.e].next == bg.e)
       && (ag.stage == Grant ==> ag.x == bg.e && bg.stage != Link)
  }

  ghost predicate LockOk(s: System, l: nat)
    requires l in s.locks
  {
    var lk := s.locks[l];
    && lk.served <= |lk.arrived|
    && (lk.tail == NULL <==> lk.served == |lk.arrived|)
  }

  ghost predicate Inv(s: System)
  {
    && (forall a :: a in s.agents ==> AgentOk(s, a))
    && (forall e :: e in s.entries ==> EntryOk(s, e))
    && (forall e :: e in s.owner ==> e in s.entries)
    && (forall l :: l in s.locks ==> LockOk(s, l))
    && (forall l, k: nat :: l in s.locks && s.locks[l].served <= k < |s.locks[l].arrived| ==> PlaceOk(s, l, k))
    && (forall l, k: nat :: l in s.locks && s.locks[l].served <= k && k + 1 < |s.locks[l].arrived| ==> PairOk(s, l, k))
  }

  // ---------------------------------------------------------------------------------
  // Preservation
  // ---------------------------------------------------------------------------------

  /** From s to s', agent a moves, and nothing else changes but entry w and lock l; w is a's
      own or belongs to an agent in the queue of l, and a is in no other queue. */
  ghost predicate Local(s: System, s': System, a: AgentId, w: nat, l: int)
  {
    && a in s.agents && a in s'.agents && s'.agents == s.agents[a := s'.agents[a]]
    && s'.entries.Keys == s.entries.Keys && s'.locks.Keys == s.locks.Keys
    && (forall e :: e in s.entries && e != w ==> s'.entries[e] == s.entries[e])
    && (forall e :: e != w ==> (e in s'.owner <==> e in s.owner) && (e in s.owner ==> s'.owner[e] == s.owner[e]))
    && (forall m :: m in s.locks && m != l ==> s'.locks[m] == s.locks[m])
    && (Queued(s.agents[a].stage) || Queued(s'.agents[a].stage) ==> s.agents[a].l == s'.agents[a].l == l)
    && (w in s.owner && s.owner[w] != a ==>
          && s.owner[w] in s.agents && Queued(s.agents[s.owner[w]].stage) && s.agents[s.owner[w]].l == l
          && w in s'.owner && s'.owner[w] == s.owner[w] && w in s.entries && s'.entries[w].use == s.entries[w].use)
    && (HasEntry(s.agents[a].stage) && s.agents[a].e != w ==>
          HasEntry(s'.agents[a].stage) && s'.agents[a].e == s.agents[a].e)
    && (l in s.locks ==>
          && s.locks[l].arrived <= s'.locks[l].arrived
          && (s'.locks[l].served == s.locks[l].served
              || (s'.locks[l].served == s.locks[l].served + 1 && Queued(s.agents[a].stage)
                  && s.agents[a].k == s.locks[l].served)))
  }

  lemma OtherAgentOk(s: System, s': System, a: AgentId, w: nat, l: int, b: AgentId)
    requires Local(s, s', a, w, l) && AgentOk(s, a) && b in s.agents && b != a && AgentOk(s, b)
    ensures AgentOk(s', b) == true
  {
    var bg := s.agents[b];
    if Queued(bg.stage) && bg.l == l && s'.locks[l].served != s.locks[l].served {
      assert s.locks[l].arrived[s.agents[a].k] == a;
    }
  }

  lemma OtherEntryOk(s: System, s': System, a: AgentId, w: nat, l: int, e: nat)
    requires Local(s, s', a, w, l) && e in s.entries && e != w && EntryOk(s, e)
    ensures EntryOk(s', e) == true
  {
  }

  lemma OtherPlaceOk(s: System, s': System, a: AgentId, w: nat, l: int, m: nat, k: nat)
    requires Inv(s) && Local(s, s', a, w, l)
    requires m in s.locks && m != l && s.locks[m].served <= k < |s.locks[m].arrived|
    ensures PlaceOk(s', m, k) == true
  {
    assert PlaceOk(s, m, k) == true;
    var b := s.locks[m].arrived[k];
    assert AgentOk(s, b) == true;
  }

  lemma OtherPairOk(s: System, s': System, a: AgentId, w: nat, l: int, m: nat, k: nat)
    requires Inv(s) && Local(s, s', a, w, l)
    requires m in s.locks && m != l && s.locks[m].served <= k && k + 1 < |s.locks[m].arrived|
    ensures PairOk(s', m, k)
  {
    assert PairOk(s, m, k) == true && PlaceOk(s, m, k) == true && PlaceOk(s, m, k + 1) == true;
    assert AgentOk(s, s.locks[m].arrived[k]) == true;
  }

  ghost predicate QueueOk(s: System, l: nat)
    requires l in s.locks
  {
    && LockOk(s, l)
    && (forall k: nat :: s.locks[l].served <= k < |s.locks[l].arrived| ==> PlaceOk(s, l, k))
    && (forall k: nat :: s.locks[l].served <= k && k + 1 < |s.locks[l].arrived| ==> PairOk(s, l, k))
  }

  /** It is enough to check the moving agent, the entry it writes and its lock's queue. */
  lemma StepFrame(s: System, s': System, a: AgentId, w: nat, l: int)
    requires Inv(s) && Local(s, s', a, w, l) == true
    requires AgentOk(s', a) == true
    requires w in s'.entries ==> EntryOk(s', w) == true
    requires w in s'.owner ==> w in s'.entries
    requires l in s'.locks ==> QueueOk(s', l) == true
    ensures Inv(s') == true
  {
    assert AgentOk(s, a) == true;
    forall b | b in s'.agents ensures AgentOk(s', b) == true {
      if b != a { assert AgentOk(s, b) == true; OtherAgentOk(s, s', a, w, l, b); }
    }
    forall e | e in s'.entries ensures EntryOk(s', e) == true {
      if e != w { assert EntryOk(s, e) == true; OtherEntryOk(s, s', a, w, l, e); }
    }
    forall m | m in s'.locks ensures LockOk(s', m) == true {
      if m != l { assert LockOk(s, m) == true; }
    }
    forall m, k: nat | m in s'.locks && s'.locks[m].served <= k < |s'.locks[m].arrived|
      ensures PlaceOk(s', m, k) == true {
      if m != l { OtherPlaceOk(s, s', a, w, l, m, k); }
    }
    forall m, k: nat | m in s'.locks && s'.locks[m].served <= k && k + 1 < |s'.locks[m].arrived|
      ensures PairOk(s', m, k) == true {
      if m != l { OtherPairOk(s, s', a, w, l, m, k); }
    }
  }

  /** An agent outside every queue takes, writes or frees entry w, which nobody else owns. */
  lemma PrivateLocal(s: System, s': System, a: AgentId, w: nat, ag': Agent)
    requires a in s.agents && !Queued(s.agents[a].stage) && !Queued(ag'.stage) && w in s.entries && w in s'.entries
    requires s'.agents == s.agents[a := ag'] && s'.locks == s.locks && s'.entries == s.entries[w := s'.entries[w]]
    requires w in s.owner ==> s.owner[w] == a
    requires s'.owner == s.owner || s'.owner == s.owner - {w} || s'.owner == s.owner[w := a]
    requires HasEntry(s.agents[a].stage) ==> s.agents[a].e == w
    ensures Local(s, s', a, w, -1) == true
  {
  }

  /** An agent outside every queue writes its own entry. */
  lemma OwnEntryStep(s: System, s': System, a: AgentId, ag': Agent, en: Entry)
    requires Inv(s) && a in s.agents && HasEntry(s.agents[a].stage) && !Queued(s.agents[a].stage)
    requires HasEntry(ag'.stage) && !Queued(ag'.stage) && ag'.e == s.agents[a].e && en.use
    requires s' == s.(entries := s.entries[ag'.e := en], agents := s.agents[a := ag'])
    requires ag'.stage.SetState? || ag'.stage.Exchange? ==> en.next == NULL
    requires ag'.stage.Exchange? ==> en.state
    ensures Inv(s') == true
  {
    assert AgentOk(s, a) == true && EntryOk(s, ag'.e) == true;
    PrivateLocal(s, s', a, ag'.e, ag');
    StepFrame(s, s', a, ag'.e, -1);
  }

  lemma RetireKeepsInv(s: System, s': System, a: AgentId, ag': Agent)
    requires Inv(s) && a in s.agents && s.agents[a].stage.Retire? && ag'.stage.Rest?
    requires var e := s.agents[a].e;
             e in s.entries ==> s' == s.(entries := s.entries[e := s.entries[e].(use := false)],
                                         owner := s.owner - {e}, agents := s.agents[a := ag'])
    ensures Inv(s') == true
  {
    var e := s.agents[a].e;
    assert AgentOk(s, a) == true && EntryOk(s, e) == true;
    PrivateLocal(s, s', a, e, ag');
    StepFrame(s, s', a, e, -1);
  }

  lemma TakeKeepsInv(s: System, s': System, a: AgentId, ag': Agent, e: nat)
    requires Inv(s) && a in s.agents && s.agents[a].stage.Scan? && ag'.stage.ClearNext? && ag'.e == e
    requires e in s.entries && !s.entries[e].use
    requires s' == s.(counts := s'.counts, entries := s.entries[e := s.entries[e].(use := true)],
                      owner := s.owner[e := a], agents := s.agents[a := ag'])
    ensures Inv(s') == true
  {
    assert EntryOk(s, e) == true;
    PrivateLocal(s, s', a, e, ag');
    StepFrame(s, s', a, e, -1);
  }

  /** An agent without an entry moves, or goes on scanning. */
  lemma BareStep(s: System, s': System, a: AgentId, ag': Agent)
    requires Inv(s) && (a in s.agents ==> !HasEntry(s.agents[a].stage)) && !HasEntry(ag'.stage)
    requires s' == s.(counts := s'.counts, agents := s.agents[a := ag'])
    ensures Inv(s') == true
  {
    forall b | b in s'.agents ensures AgentOk(s', b) == true {
      if b != a { assert AgentOk(s, b) == true; }
    }
    forall e | e in s'.entries ensures EntryOk(s', e) == true { assert EntryOk(s, e) == true; }
    forall l | l in s'.locks ensures QueueOk(s', l) == true { BareQueue(s, s', a, l); }
  }

  lemma BareQueue(s: System, s': System, a: AgentId, l: nat)
    requires Inv(s) && (a in s.agents ==> !HasEntry(s.agents[a].stage)) && l in s.locks
    requires a in s'.agents && s' == s.(counts := s'.counts, agents := s.agents[a := s'.agents[a]])
    ensures QueueOk(s', l) == true
  {
    assert LockOk(s, l) == true;
    forall k: nat | s.locks[l].served <= k < |s.locks[l].arrived| ensures PlaceOk(s', l, k) == true {
      assert PlaceOk(s, l, k) == true;
    }
    forall k: nat | s.locks[l].served <= k && k + 1 < |s.locks[l].arrived| ensures PairOk(s', l, k) == true {
      assert PairOk(s, l, k) == true && PlaceOk(s, l, k) == true && PlaceOk(s, l, k + 1) == true;
    }
  }

  /** The agent at another position of the queue is another agent with another entry. */
  lemma OtherPosition(s: System, a: AgentId, k: nat)
    requires Inv(s) && a in s.agents && Queued(s.agents[a].stage)
    requires var l := s.agents[a].l;
             l in s.locks ==> s.locks[l].served <= k < |s.locks[l].arrived| && k != s.agents[a].k
    ensures var ag := s.agents[a];
            && ag.l in s.locks && PlaceOk(s, ag.l, k) && PlaceOk(s, ag.l, ag.k)
            && s.locks[ag.l].arrived[ag.k] == a && s.locks[ag.l].arrived[k] != a
            && s.agents[s.locks[ag.l].arrived[k]].e != ag.e
  {
    assert AgentOk(s, a) == true;
    var ag := s.agents[a];
    var b := s.locks[ag.l].arrived[k];
    assert PlaceOk(s, ag.l, k) == true && PlaceOk(s, ag.l, ag.k) == true;
    assert AgentOk(s, b) == true;
  }

  lemma NullIsNoEntry(s: System)
    requires Inv(s)
    ensures NULL !in s.entries && NULL !in s.owner
  {
    assert NULL in s.entries ==> EntryOk(s, NULL) == true;
  }

  /** A queued agent moves on without writing anything. */
  lemma QuietMove(s: System, s': System, a: AgentId, ag': Agent)
    requires Inv(s) && a in s.agents && Queued(s.agents[a].stage) && Queued(ag'.stage)
    requires var ag := s.agents[a];
             ag'.l == ag.l && ag'.k == ag.k && ag'.e == ag.e && ag.stage != Link && ag'.stage != Link
    requires s' == s.(agents := s.agents[a := ag'])
    requires ag'.l in s.locks && s.locks[ag'.l].served <= ag'.k < |s.locks[ag'.l].arrived|
    requires PlaceOk(s', ag'.l, ag'.k) == true
    requires ag'.k + 1 < |s.locks[ag'.l].arrived| ==> PairOk(s', ag'.l, ag'.k) == true
    ensures Inv(s') == true
  {
    assert AgentOk(s, a) == true;
    NullIsNoEntry(s);
    QuietQueue(s, s', a, ag');
    StepFrame(s, s', a, NULL, ag'.l);
  }

  lemma QuietQueue(s: System, s': System, a: AgentId, ag': Agent)
    requires Inv(s) && a in s.agents && Queued(s.agents[a].stage)
    requires var ag := s.agents[a];
             ag'.l == ag.l && ag'.k == ag.k && ag'.e == ag.e && ag.stage != Link && ag'.stage != Link
    requires s' == s.(agents := s.agents[a := ag'])
    requires ag'.l in s.locks && s.locks[ag'.l].served <= ag'.k < |s.locks[ag'.l].arrived|
    requires PlaceOk(s', ag'.l, ag'.k) == true
    requires ag'.k + 1 < |s.locks[ag'.l].arrived| ==> PairOk(s', ag'.l, ag'.k) == true
    ensures QueueOk(s', ag'.l) == true
  {
    var l := ag'.l;
    assert LockOk(s, l) == true;
    forall k: nat | s'.locks[l].served <= k < |s'.locks[l].arrived| ensures PlaceOk(s', l, k) == true {
      if k != ag'.k { OtherPosition(s, a, k); }
    }
    forall k: nat | s'.locks[l].served <= k && k + 1 < |s'.locks[l].arrived| ensures PairOk(s', l, k) == true {
      if k != ag'.k { QuietPair(s, s', a, ag', k); }
    }
  }

  lemma QuietPair(s: System, s': System, a: AgentId, ag': Agent, k: nat)
    requires Inv(s) && a in s.agents && Queued(s.agents[a].stage)
    requires var ag := s.agents[a];
             ag'.l == ag.l && ag'.k == ag.k && ag'.e == ag.e && ag.stage != Link && ag'.stage != Link
    requires s' == s.(agents := s.agents[a := ag'])
    requires ag'.l in s.locks && s.locks[ag'.l].served <= k && k + 1 < |s.locks[ag'.l].arrived| && k != ag'.k
    ensures PairOk(s', ag'.l, k) == true
  {
    assert PairOk(s, ag'.l, k) == true;
    OtherPosition(s, a, k);
    if k + 1 != ag'.k { OtherPosition(s, a, k + 1); }
  }

  /** What a waiter about to link itself knows: the entry it writes is in use, by the agent
      just before it in the same queue. */
  lemma Predecessor(s: System, a: AgentId) returns (b: AgentId)
    requires Inv(s) && a in s.agents && s.agents[a].stage.Link?
    ensures PrecedesInQueue(s, s.agents[a].x, a) == true
    ensures var g := s.agents[a];
            && b == s.owner[g.x] && b in s.agents && b != a && s.agents[b].e == g.x && Queued(s.agents[b].stage)
            && s.agents[b].l == g.l && s.agents[b].k == g.k - 1
            && AgentOk(s, a) && PlaceOk(s, g.l, g.k) && PlaceOk(s, g.l, g.k - 1) && PairOk(s, g.l, g.k - 1)
  {
    var g := s.agents[a];
    assert AgentOk(s, a) == true;
    assert PlaceOk(s, g.l, g.k) == true;
    assert PairOk(s, g.l, g.k - 1) == true && PlaceOk(s, g.l, g.k - 1) == true;
    b := s.locks[g.l].arrived[g.k - 1];
    assert AgentOk(s, b) == true;
  }

  /** Entry e is in use, by the agent just before a in the queue of a's lock. */
  ghost predicate PrecedesInQueue(s: System, e: nat, a: AgentId)
    requires a in s.agents
  {
    var g := s.agents[a];
    && e in s.entries && s.entries[e].use && e in s.owner
    && g.l in s.locks && s.locks[g.l].served < g.k < |s.locks[g.l].arrived|
    && s.locks[g.l].arrived[g.k - 1] == s.owner[e]
  }

  lemma LinkQueue(s: System, s': System, a: AgentId)
    requires Inv(s) && a in s.agents && s.agents[a].stage.Link? && s.agents[a].l in s.locks
    requires var g := s.agents[a];
             && g.x in s.entries
             && s' == s.(entries := s.entries[g.x := s.entries[g.x].(next := g.e)],
                         agents := s.agents[a := g.(stage := Spin)])
    ensures QueueOk(s', s.agents[a].l) == true
  {
    var l := s.agents[a].l;
    var b := Predecessor(s, a);
    assert LockOk(s, l) == true;
    forall j: nat | s'.locks[l].served <= j < |s'.locks[l].arrived| ensures PlaceOk(s', l, j) == true {
      LinkPlace(s, s', a, b, j);
    }
    forall j: nat | s'.locks[l].served <= j && j + 1 < |s'.locks[l].arrived| ensures PairOk(s', l, j) == true {
      LinkPair(s, s', a, b, j);
    }
  }

  lemma LinkPlace(s: System, s': System, a: AgentId, b: AgentId, j: nat)
    requires Inv(s) && a in s.agents && b in s.agents && s.agents[a].stage.Link? && Queued(s.agents[b].stage) && a != b
    requires var g := s.agents[a];
             && g.l in s.locks && PrecedesInQueue(s, g.x, a) && s.agents[b].e == g.x
             && s.agents[b].l == g.l && s.agents[b].k == g.k - 1
             && s' == s.(entries := s.entries[g.x := s.entries[g.x].(next := g.e)],
                         agents := s.agents[a := g.(stage := Spin)])
             && s.locks[g.l].served <= j < |s.locks[g.l].arrived|
    ensures PlaceOk(s', s.agents[a].l, j) == true
  {
    var g := s.agents[a];
    assert PlaceOk(s, g.l, j) == true && PlaceOk(s, g.l, g.k) == true;
    if j != g.k { OtherPosition(s, a, j); }
    if j != g.k - 1 { OtherPosition(s, b, j); }
  }

  lemma LinkPair(s: System, s': System, a: AgentId, b: AgentId, j: nat)
    requires Inv(s) && a in s.agents && b in s.agents && s.agents[a].stage.Link? && Queued(s.agents[b].stage) && a != b
    requires var g := s.agents[a];
             && g.l in s.locks && PrecedesInQueue(s, g.x, a) && s.agents[b].e == g.x
             && s.agents[b].l == g.l && s.agents[b].k == g.k - 1
             && s' == s.(entries := s.entries[g.x := s.entries[g.x].(next := g.e)],
                         agents := s.agents[a := g.(stage := Spin)])
             && s.locks[g.l].served <= j && j + 1 < |s.locks[g.l].arrived|
    ensures PairOk(s', s.agents[a].l, j)
  {
    var g := s.agents[a];
    assert PairOk(s, g.l, j) == true;
    OtherPosition(s, a, g.k - 1);
    if j != g.k { OtherPosition(s, a, j); }
    if j + 1 != g.k { OtherPosition(s, a, j + 1); OtherPosition(s, b, j); }
  }

  /** A waiter links itself: it writes `m_next` of the entry just before it in the queue. */
  lemma LinkKeepsInv(s: System, s': System, a: AgentId)
    requires Inv(s) && a in s.agents && s.agents[a].stage.Link?
    requires var g := s.agents[a];
             g.x in s.entries ==>
               s' == s.(entries := s.entries[g.x := s.entries[g.x].(next := g.e)],
                        agents := s.agents[a := g.(stage := Spin)])
    ensures Inv(s') == true
  {
    var b := Predecessor(s, a);
    var x := s.agents[a].x;
    assert EntryOk(s, x) == true;
    LinkQueue(s, s', a);
    StepFrame(s, s', a, x, s.agents[a].l);
  }

  lemma RecordPair(s: System, s': System, a: AgentId, j: nat)
    requires Inv(s) && a in s.agents && s.agents[a].stage.Record? && s.agents[a].l in s.locks
    requires var g := s.agents[a];
             s' == s.(locks := s.locks[g.l := s.locks[g.l].(lastLockEntry := g.e)],
                      agents := s.agents[a := g.(stage := Critical)])
    requires s.locks[s.agents[a].l].served <= j && j + 1 < |s.locks[s.agents[a].l].arrived|
    ensures PairOk(s', s.agents[a].l, j) == true
  {
    var l, k := s.agents[a].l, s.agents[a].k;
    assert PairOk(s, l, j) == true;
    HolderFirst(s, a);
    if j != k { OtherPosition(s, a, j); }
    OtherPosition(s, a, j + 1);
  }

  lemma RecordQueue(s: System, s': System, a: AgentId)
    requires Inv(s) && a in s.agents && s.agents[a].stage.Record? && s.agents[a].l in s.locks
    requires var g := s.agents[a];
             s' == s.(locks := s.locks[g.l := s.locks[g.l].(lastLockEntry := g.e)],
                      agents := s.agents[a := g.(stage := Critical)])
    ensures QueueOk(s', s.agents[a].l) == true
  {
    var l, k := s.agents[a].l, s.agents[a].k;
    assert AgentOk(s, a) == true && LockOk(s, l) == true && PlaceOk(s, l, k) == true;
    forall j: nat | s'.locks[l].served <= j < |s'.locks[l].arrived| ensures PlaceOk(s', l, j) == true {
      if j != k { OtherPosition(s, a, j); }
    }
    forall j: nat | s'.locks[l].served <= j && j + 1 < |s'.locks[l].arrived| ensures PairOk(s', l, j) == true {
      RecordPair(s, s', a, j);
    }
  }

  /** The new holder records its entry in the lock. */
  lemma RecordKeepsInv(s: System, s': System, a: AgentId)
    requires Inv(s) && a in s.agents && s.agents[a].stage.Record?
    requires var g := s.agents[a];
             g.l in s.locks ==>
               s' == s.(locks := s.locks[g.l := s.locks[g.l].(lastLockEntry := g.e)],
                        agents := s.agents[a := g.(stage := Critical)])
    ensures Inv(s') == true
  {
    assert AgentOk(s, a) == true;
    RecordQueue(s, s', a);
    NullIsNoEntry(s);
    StepFrame(s, s', a, NULL, s.agents[a].l);
  }

  lemma ExchangePlace(s: System, s': System, a: AgentId, j: nat)
    requires Inv(s) && a in s.agents && s.agents[a].stage.Exchange? && s.agents[a].l in s.locks
    requires s' == ExchangeStep(s, a, s.agents[a])
    requires s.locks[s.agents[a].l].served <= j <= |s.locks[s.agents[a].l].arrived|
    ensures PlaceOk(s', s.agents[a].l, j) == true
  {
    var l := s.agents[a].l;
    var n := |s.locks[l].arrived|;
    assert AgentOk(s, a) == true && LockOk(s, l) == true;
    if j < n { assert PlaceOk(s, l, j) == true; }
  }

  lemma ExchangeQueue(s: System, s': System, a: AgentId)
    requires Inv(s) && a in s.agents && s.agents[a].stage.Exchange? && s.agents[a].l in s.locks
    requires s' == ExchangeStep(s, a, s.agents[a])
    ensures QueueOk(s', s.agents[a].l) == true
  {
    var l := s.agents[a].l;
    var n := |s.locks[l].arrived|;
    assert AgentOk(s, a) == true && LockOk(s, l) == true;
    forall j: nat | s'.locks[l].served <= j < |s'.locks[l].arrived| ensures PlaceOk(s', l, j) == true {
      ExchangePlace(s, s', a, j);
    }
    forall j: nat | s'.locks[l].served <= j && j + 1 < |s'.locks[l].arrived| ensures PairOk(s', l, j) == true {
      assert PlaceOk(s, l, j) == true;
      if j + 1 < n { assert PairOk(s, l, j) == true && PlaceOk(s, l, j + 1) == true; }
    }
  }

  /** The tail exchange appends the agent to the queue. */
  lemma ExchangeKeepsInv(s: System, s': System, a: AgentId)
    requires Inv(s) && a in s.agents && s.agents[a].stage.Exchange? && s.agents[a].l in s.locks
    requires s' == ExchangeStep(s, a, s.agents[a])
    ensures Inv(s') == true
  {
    assert AgentOk(s, a) == true && LockOk(s, s.agents[a].l) == true;
    ExchangeQueue(s, s', a);
    NullIsNoEntry(s);
    StepFrame(s, s', a, NULL, s.agents[a].l);
  }

  /** The holder is first, and it is alone exactly if its entry is the tail. */
  lemma HolderFirst(s: System, a: AgentId)
    requires Inv(s) && a in s.agents && Holds(s.agents[a].stage)
    ensures var g := s.agents[a];
            && g.l in s.locks && g.k == s.locks[g.l].served < |s.locks[g.l].arrived|
            && s.locks[g.l].arrived[g.k] == a && AgentOk(s, a) && PlaceOk(s, g.l, g.k)
            && (s.locks[g.l].tail == g.e <==> g.k + 1 == |s.locks[g.l].arrived|)
  {
    var g := s.agents[a];
    assert AgentOk(s, a) == true;
    assert PlaceOk(s, g.l, g.k) == true;
    var n := |s.locks[g.l].arrived|;
    if g.k + 1 < n { OtherPosition(s, a, n - 1); }
  }

  /** Leaving an empty queue: the tail goes back to null. */
  lemma LastLeaves(s: System, s': System, a: AgentId)
    requires Inv(s) && a in s.agents && s.agents[a].stage.CasTail?
    requires var g := s.agents[a];
             g.l in s.locks ==>
               && s.locks[g.l].tail == g.e
               && s' == s.(locks := s.locks[g.l := s.locks[g.l].(tail := NULL, served := s.locks[g.l].served + 1)],
                           agents := s.agents[a := g.(stage := Retire)])
    ensures Inv(s') == true
  {
    HolderFirst(s, a);
    var l := s.agents[a].l;
    assert LockOk(s, l) == true;
    NullIsNoEntry(s);
    assert QueueOk(s', l) == true;
    StepFrame(s, s', a, NULL, l);
  }

  /** What a holder about to pass the lock on knows: the entry it writes is in use, by the
      agent just after it in the same queue, which is waiting. */
  lemma Successor(s: System, a: AgentId) returns (b: AgentId)
    requires Inv(s) && a in s.agents && s.agents[a].stage.Grant?
    ensures var g := s.agents[a];
            && g.l in s.locks && g.k == s.locks[g.l].served && g.k + 1 < |s.locks[g.l].arrived|
            && b == s.locks[g.l].arrived[g.k + 1] && b in s.agents && b != a
            && g.x in s.entries && s.entries[g.x].use && g.x in s.owner && s.owner[g.x] == b
            && s.agents[b].e == g.x && s.agents[b].l == g.l && s.agents[b].k == g.k + 1 && s.agents[b].stage.Spin?
            && s.locks[g.l].arrived[g.k] == a && AgentOk(s, a)
  {
    HolderFirst(s, a);
    var g := s.agents[a];
    assert PlaceOk(s, g.l, g.k + 1) == true && PairOk(s, g.l, g.k) == true;
    b := s.locks[g.l].arrived[g.k + 1];
    assert AgentOk(s, b) == true;
  }

  lemma GrantQueue(s: System, s': System, a: AgentId, b: AgentId)
    requires Inv(s) && a in s.agents && s.agents[a].stage.Grant? && s.agents[a].l in s.locks
    requires var g := s.agents[a];
             && g.k == s.locks[g.l].served && g.k + 1 < |s.locks[g.l].arrived|
             && b == s.locks[g.l].arrived[g.k + 1] && b in s.agents && a != b && s.agents[b].e == g.x
             && s.agents[b].l == g.l && s.agents[b].k == g.k + 1 && s.agents[b].stage.Spin? && g.x in s.entries
             && s' == s.(entries := s.entries[g.x := s.entries[g.x].(state := false)],
                         locks := s.locks[g.l := s.locks[g.l].(served := s.locks[g.l].served + 1)],
                         agents := s.agents[a := g.(stage := Retire)])
    ensures QueueOk(s', s.agents[a].l) == true
  {
    var l, k := s.agents[a].l, s.agents[a].k;
    assert LockOk(s, l) == true;
    forall j: nat | s'.locks[l].served <= j < |s'.locks[l].arrived| ensures PlaceOk(s', l, j) == true {
      OtherPosition(s, a, j);
      if j != k + 1 { OtherPosition(s, b, j); }
    }
    forall j: nat | s'.locks[l].served <= j && j + 1 < |s'.locks[l].arrived| ensures PairOk(s', l, j) == true {
      assert PairOk(s, l, j) == true;
      OtherPosition(s, a, j);
      OtherPosition(s, a, j + 1);
    }
  }

  lemma GrantLocal(s: System, s': System, a: AgentId, b: AgentId)
    requires Inv(s) && a in s.agents && s.agents[a].stage.Grant? && s.agents[a].l in s.locks
    requires var g := s.agents[a];
             && g.k == s.locks[g.l].served && b in s.agents && s.agents[b].l == g.l && s.agents[b].stage.Spin?
             && g.x in s.entries && g.x in s.owner && s.owner[g.x] == b && AgentOk(s, a)
             && s' == s.(entries := s.entries[g.x := s.entries[g.x].(state := false)],
                         locks := s.locks[g.l := s.locks[g.l].(served := s.locks[g.l].served + 1)],
                         agents := s.agents[a := g.(stage := Retire)])
    ensures Local(s, s', a, s.agents[a].x, s.agents[a].l) == true
  {
  }

  /** The holder passes the lock on: it writes `m_state` of the entry just after its own. */
  lemma GrantKeepsInv(s: System, s': System, a: AgentId)
    requires Inv(s) && a in s.agents && s.agents[a].stage.Grant?
    requires var g := s.agents[a];
             g.x in s.entries && g.l in s.locks ==>
               s' == s.(entries := s.entries[g.x := s.entries[g.x].(state := false)],
                        locks := s.locks[g.l := s.locks[g.l].(served := s.locks[g.l].served + 1)],
                        agents := s.agents[a := g.(stage := Retire)])
    ensures Inv(s') == true
  {
    var b := Successor(s, a);
    var g := s.agents[a];
    GrantQueue(s, s', a, b);
    assert EntryOk(s, g.x) == true;
    GrantLocal(s, s', a, b);
    StepFrame(s, s', a, g.x, g.l);
  }

  // ---------------------------------------------------------------------------------
  // All steps together
  // ---------------------------------------------------------------------------------

  /** A scanning round takes one unused entry or leaves everything but the pool counter. */
  lemma ScanShape(s: System, a: AgentId, spurious: bool)
    requires a in s.agents && s.agents[a].stage.Scan?
    ensures var s' := ScanStep(s, a, s.agents[a], spurious);
            && a in s'.agents
            && var g := s'.agents[a];
               if g.stage.ClearNext? then
                 && g.e in s.entries && !s.entries[g.e].use
                 && s' == s.(counts := s'.counts, entries := s.entries[g.e := s.entries[g.e].(use := true)],
                             owner := s.owner[g.e := a], agents := s.agents[a := g])
               else
                 !HasEntry(g.stage) && s' == s.(counts := s'.counts, agents := s.agents[a := g])
  {
  }

  lemma ScanKeepsInv(s: System, s': System, a: AgentId, spurious: bool)
    requires Inv(s) && a in s.agents && s.agents[a].stage.Scan?
    requires s' == ScanStep(s, a, s.agents[a], spurious)
    ensures Inv(s') == true
  {
    ScanShape(s, a, spurious);
    var g := s'.agents[a];
    if g.stage.ClearNext? { TakeKeepsInv(s, s', a, g, g.e); } else { BareStep(s, s', a, g); }
  }

  lemma PrepareKeepsInv(s: System, s': System, a: AgentId)
    requires Inv(s) && a in s.agents
    requires var st := s.agents[a].stage; st.ClearNext? || st.SetState? || (st.Exchange? && s.agents[a].trying)
    requires s' == AdvanceAgent(s, a, s.agents[a], false)
    ensures Inv(s') == true
  {
    var g := s.agents[a];
    assert AgentOk(s, a) == true;
    var en := s.entries[g.e];
    match g.stage
    case ClearNext => OwnEntryStep(s, s', a, g.(stage := SetState), en.(next := NULL));
    case SetState => OwnEntryStep(s, s', a, g.(stage := Exchange), en.(state := true));
    case Exchange => if s' != s { OwnEntryStep(s, s', a, g.(stage := Retire), en); }
  }

  lemma WaiterStepKeepsInv(s: System, a: AgentId)
    requires Inv(s) && a in s.agents
    requires (s.agents[a].stage.Link? || s.agents[a].stage.Spin? || s.agents[a].stage.Record?)
    ensures Inv(AdvanceAgent(s, a, s.agents[a], false)) == true
  {
    var g := s.agents[a];
    var s' := AdvanceAgent(s, a, g, false);
    assert AgentOk(s, a) == true;
    assert PlaceOk(s, g.l, g.k) == true;
    match g.stage
    case Link => var b := Predecessor(s, a); LinkKeepsInv(s, s', a);
    case Spin =>
      if s' != s {
        if g.k + 1 < |s.locks[g.l].arrived| { assert PairOk(s, g.l, g.k) == true; }
        QuietMove(s, s', a, g.(stage := Record));
      }
    case Record => RecordKeepsInv(s, s', a);
  }

  /** Reading `m_lastLockEntry`, failing to reset the tail, and seeing the successor. */
  lemma HolderMoveKeepsInv(s: System, s': System, a: AgentId, g': Agent)
    requires Inv(s) && a in s.agents && Holds(s.agents[a].stage)
    requires s' == s.(agents := s.agents[a := g'])
    requires var g := s.agents[a];
             || (g.stage.Critical? && g' == g.(stage := ReadLast))
             || (g.stage.ReadLast? && g.l in s.locks && g' == g.(stage := CasTail, e := s.locks[g.l].lastLockEntry))
             || (g.stage.CasTail? && g.l in s.locks && s.locks[g.l].tail != g.e && g' == g.(stage := ReadNext))
             || (g.stage.ReadNext? && g.e in s.entries && s.entries[g.e].next != NULL
                 && g' == g.(stage := Grant, x := s.entries[g.e].next))
    ensures Inv(s') == true
  {
    var g := s.agents[a];
    HolderFirst(s, a);
    assert PlaceOk(s, g.l, g.k) == true;
    if g.k + 1 < |s.locks[g.l].arrived| { HolderPair(s, s', a, g'); }
    QuietMove(s, s', a, g');
  }

  lemma HolderPair(s: System, s': System, a: AgentId, g': Agent)
    requires Inv(s) && a in s.agents && Holds(s.agents[a].stage) && s' == s.(agents := s.agents[a := g'])
    requires var g := s.agents[a];
             && g.l in s.locks && s.locks[g.l].served == g.k && g.k + 1 < |s.locks[g.l].arrived|
             && g'.e == g.e && g'.l == g.l && g'.k == g.k
             && (g'.stage.Grant? ==> g.e in s.entries && s.entries[g.e].next != NULL && g'.x == s.entries[g.e].next)
    ensures PairOk(s', g'.l, g'.k) == true
  {
    OtherPosition(s, a, g'.k + 1);
    assert PairOk(s, g'.l, g'.k) == true;
  }

  lemma AdvanceKeepsInv(s: System, a: AgentId, spurious: bool)
    requires Inv(s) && a in s.agents
    ensures Inv(AdvanceAgent(s, a, s.agents[a], spurious)) == true
  {
    var g := s.agents[a];
    if g.stage.Scan? { ScanKeepsInv(s, ScanStep(s, a, g, spurious), a, spurious); }
    else if g.stage.ClearNext? || g.stage.SetState? || (g.stage.Exchange? && g.trying) {
      PrepareKeepsInv(s, AdvanceAgent(s, a, g, false), a);
    }
    else if g.stage.Exchange? {
      if g.l in s.locks { ExchangeKeepsInv(s, ExchangeStep(s, a, g), a); }
    }
    else if g.stage.Link? || g.stage.Spin? || g.stage.Record? { WaiterStepKeepsInv(s, a); }
    else { UnlockStepKeepsInv(s, a); }
  }

  lemma UnlockStepKeepsInv(s: System, a: AgentId)
    requires Inv(s) && a in s.agents
    requires var st := s.agents[a].stage; (Holds(st) && !st.Record?) || st.Retire? || (!HasEntry(st) && !st.Scan?)
    ensures Inv(AdvanceAgent(s, a, s.agents[a], false)) == true
  {
    var g := s.agents[a];
    if Holds(g.stage) { HolderFirst(s, a); }
    match g.stage
    case ReadLast => HolderMoveKeepsInv(s, AdvanceAgent(s, a, g, false), a,
                                        g.(stage := CasTail, e := s.locks[g.l].lastLockEntry));
    case CasTail =>
      var s' := CasTailStep(s, a, g);
      if s.locks[g.l].tail == g.e { LastLeaves(s, s', a); } else {
        HolderMoveKeepsInv(s, s', a, g.(stage := ReadNext));
      }
    case ReadNext =>
      if s.entries[g.e].next != NULL {
        HolderMoveKeepsInv(s, AdvanceAgent(s, a, g, false), a, g.(stage := Grant, x := s.entries[g.e].next));
      }
    case Grant =>
      var b := Successor(s, a);
      GrantKeepsInv(s, GrantStep(s, a, g), a);
    case Retire =>
      assert AgentOk(s, a) == true;
      RetireKeepsInv(s, AdvanceAgent(s, a, g, false), a, g.(stage := Rest));
    case _ =>
  }

  lemma StepKeepsInv(s: System, act: Action)
    requires Inv(s)
    ensures Inv(Step(s, act)) == true
  {
    match act
    case Start(a, l, trying, cpu) =>
      if (a in s.agents ==> s.agents[a].stage == Rest) && l in s.locks {
        BareStep(s, Step(s, act), a, Agent(Scan, l, trying, cpu, 0, NULL, NULL, 0));
      }
    case Leave(a) => if a in s.agents && s.agents[a].stage == Critical {
      HolderMoveKeepsInv(s, Step(s, act), a, s.agents[a].(stage := ReadLast));
    }
    case Advance(a, spurious) => if a in s.agents { AdvanceKeepsInv(s, a, spurious); }
  }

  // ---------------------------------------------------------------------------------
  // What holds in every run
  // ---------------------------------------------------------------------------------

  /** Any number of pools with all entries unused, any set of locks, all free, no agents. */
  predicate Init(s: System)
  {
    && (forall e :: e in s.entries ==> e != NULL && !s.entries[e].use)
    && (forall l :: l in s.locks ==> s.locks[l].tail == NULL && s.locks[l].arrived == [] && s.locks[l].served == 0)
    && s.agents == map[] && s.owner == map[]
  }

  lemma {:induction false} ReachableInv(s0: System, run: seq<Action>)
    requires Init(s0)
    ensures Inv(Exec(s0, run)) == true
    decreases |run|
  {
    if run != [] {
      ReachableInv(s0, run[..|run| - 1]);
      StepKeepsInv(Exec(s0, run[..|run| - 1]), run[|run| - 1]);
    }
  }

  predicate Holder(s: System, a: AgentId, l: nat)
  {
    a in s.agents && s.agents[a].l == l && Holds(s.agents[a].stage)
  }

  /** Mutual exclusion and fairness: in every reachable state a lock has at most one holder,
      and the holder is the agent whose tail exchange comes right after the `served` ones
      that have already held the lock and passed it on. */
  lemma MutualExclusionInOrder(s0: System, run: seq<Action>, l: nat, a: AgentId, b: AgentId)
    requires Init(s0)
    ensures var s := Exec(s0, run);
            && (Holder(s, a, l) && Holder(s, b, l) ==> a == b)
            && (Holder(s, a, l) ==> l in s.locks && s.locks[l].served < |s.locks[l].arrived|
                                    && s.locks[l].arrived[s.locks[l].served] == a)
  {
    ReachableInv(s0, run);
    var s := Exec(s0, run);
    if Holder(s, a, l) { HolderFirst(s, a); }
    if Holder(s, b, l) { HolderFirst(s, b); }
  }

  /** The entry whose `m_next` or `m_state` an agent is about to write. */
  function WriteTarget(g: Agent): nat
  {
    if g.stage.ClearNext? || g.stage.SetState? then g.e
    else if g.stage.Link? || g.stage.Grant? then g.x
    else NULL
  }

  /** The entry an agent is about to write is in use, by the agent itself before its exchange,
      by its predecessor in the same queue when it links, by its successor when it passes the
      lock on. */
  ghost predicate WritesLiveEntry(s: System, a: AgentId)
    requires a in s.agents
  {
    var g := s.agents[a];
    var e := WriteTarget(g);
    e != NULL ==>
      && e in s.entries && s.entries[e].use && e in s.owner
      && (g.stage.ClearNext? || g.stage.SetState? ==> s.owner[e] == a)
      && (g.stage.Link? ==> PrecedesInQueue(s, e, a))
      && (g.stage.Grant? ==> s.owner[e] in s.agents && PrecedesInQueue(s, g.e, s.owner[e]))
  }

  lemma InvWritesLiveEntry(s: System, a: AgentId)
    requires Inv(s) && a in s.agents
    ensures WritesLiveEntry(s, a) == true
  {
    assert AgentOk(s, a) == true;
    if s.agents[a].stage.Link? {
      var b := Predecessor(s, a);
    } else if s.agents[a].stage.Grant? {
      var b := Successor(s, a);
    }
  }

  /** No write lands in a freed or reused entry, in any reachable state. */
  lemma NoStaleWrite(s0: System, run: seq<Action>, a: AgentId)
    requires Init(s0)
    ensures a in Exec(s0, run).agents ==> WritesLiveEntry(Exec(s0, run), a)
  {
    ReachableInv(s0, run);
    if a in Exec(s0, run).agents { InvWritesLiveEntry(Exec(s0, run), a); }
  }

  /** `unlock` finds the holder's own entry in `m_lastLockEntry`. */
  lemma UnlockFindsOwnEntry(s0: System, run: seq<Action>, a: AgentId)
    requires Init(s0)
    ensures var s := Exec(s0, run);
            a in s.agents && s.agents[a].stage.ReadLast? ==>
              s.agents[a].l in s.locks && s.locks[s.agents[a].l].lastLockEntry == s.agents[a].e
              && s.agents[a].e in s.owner && s.owner[s.agents[a].e] == a
  {
    ReachableInv(s0, run);
    var s := Exec(s0, run);
    if a in s.agents && s.agents[a].stage.ReadLast? { HolderFirst(s, a); }
  }

  /** The order of arrival is only extended, and the lock moves on to the next in that order
      by agent a letting go, or stays. */
  ghost predicate InOrder(s: System, s': System, a: AgentId, l: nat)
  {
    && l in s.locks && l in s'.locks && s.locks[l].arrived <= s'.locks[l].arrived
    && (s'.locks[l].served != s.locks[l].served ==>
          && s'.locks[l].served == s.locks[l].served + 1
          && Holder(s, a, l) && !Holder(s', a, l))
  }

  lemma AdvanceInOrder(s: System, a: AgentId, spurious: bool, l: nat)
    requires l in s.locks && a in s.agents
    ensures InOrder(s, AdvanceAgent(s, a, s.agents[a], spurious), a, l) == true
  {
    var g := s.agents[a];
    match g.stage
    case Exchange => if !g.trying { assert InOrder(s, ExchangeStep(s, a, g), a, l) == true; }
    case CasTail => assert InOrder(s, CasTailStep(s, a, g), a, l) == true;
    case Grant => assert InOrder(s, GrantStep(s, a, g), a, l) == true;
    case _ => OtherStepsKeepLocks(s, a, spurious, l);
  }

  /** Steps other than those of agents in progress do not touch locks. */
  lemma StepInOrder(s: System, act: Action, l: nat)
    requires l in s.locks
    ensures InOrder(s, Step(s, act), act.a, l) == true
  {
    if act.Advance? && act.a in s.agents { AdvanceInOrder(s, act.a, act.spurious, l); }
  }

  /** The order of arrival in s' extends that in s, and the lock has only moved on in it. */
  ghost predicate Onward(s: System, s': System, l: nat)
  {
    && l in s.locks && l in s'.locks
    && s.locks[l].arrived <= s'.locks[l].arrived && s.locks[l].served <= s'.locks[l].served
  }

  lemma OnwardStep(s: System, s1: System, act: Action, l: nat)
    requires Onward(s, s1, l) == true
    ensures Onward(s, Step(s1, act), l) == true
  {
    StepInOrder(s1, act, l);
  }

  lemma {:induction false} LockStays(s0: System, run: seq<Action>, l: nat)
    requires l in s0.locks
    ensures l in Exec(s0, run).locks
    decreases |run|
  {
    if run != [] {
      LockStays(s0, run[..|run| - 1], l);
      StepInOrder(Exec(s0, run[..|run| - 1]), run[|run| - 1], l);
    }
  }

  /** This holds from any point of a run to any later one. */
  lemma {:induction false} OrderOverRuns(s0: System, run: seq<Action>, longer: seq<Action>, l: nat)
    requires l in s0.locks && run <= longer
    ensures Onward(Exec(s0, run), Exec(s0, longer), l) == true
    decreases |longer|
  {
    if |run| == |longer| {
      assert run == longer;
      LockStays(s0, run, l);
    } else {
      var last := |longer| - 1;
      OrderOverRuns(s0, run, longer[..last], l);
      OnwardStep(Exec(s0, run), Exec(s0, longer[..last]), longer[last], l);
    }
  }

  /** An agent that holds a lock later than another arrived no earlier, for every run of all agents: locks are granted
      in the order of the tail exchanges. */
  lemma HandOverInOrder(s0: System, run: seq<Action>, longer: seq<Action>, l: nat, a: AgentId, b: AgentId)
    requires Init(s0) && l in s0.locks && run <= longer
    requires Holder(Exec(s0, run), a, l) && Holder(Exec(s0, longer), b, l)
    ensures var s, s' := Exec(s0, run), Exec(s0, longer);
            && Onward(s, s', l) && s'.locks[l].served < |s'.locks[l].arrived|
            && s'.locks[l].arrived[s.locks[l].served] == a && s'.locks[l].arrived[s'.locks[l].served] == b
  {
    OrderOverRuns(s0, run, longer, l);
    ReachableInv(s0, run);
    ReachableInv(s0, longer);
    HolderFirst(Exec(s0, run), a);
    HolderFirst(Exec(s0, longer), b);
  }

  lemma OtherStepsKeepLocks(s: System, a: AgentId, spurious: bool, l: nat)
    requires a in s.agents && l in s.locks
    requires var st := s.agents[a].stage; !st.Exchange? && !st.CasTail? && !st.Grant?
    ensures var s' := AdvanceAgent(s, a, s.agents[a], spurious);
            l in s'.locks && s'.locks[l].arrived == s.locks[l].arrived && s'.locks[l].served == s.locks[l].served
  {
  }
}
