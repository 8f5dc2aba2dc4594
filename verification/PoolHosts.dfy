/**
 Whose connections a get is handed. The history of a run, kept beside its states and told from its
 steps alone, says for which host each queue was made, what each get asked for, and under which
 host each stream was last returned.
 */
module PoolHosts {
  import opened Bytes
  import opened HostQueue
  import opened Pool

  datatype History = History(madeFor: map<QueueId, Addr>, asked: map<nat, Addr>, returnedTo: map<nat, Addr>)

  const NOTHING_YET: History := History(map[], map[], map[])

  /** A get asks, a return names its host, and the first return to a host without a queue makes one. */
  function Record(h: History, st: State, a: nat, step: Step): History {
    match step
    case GetLookup(addr) => h.(asked := h.asked[a := addr])
    case ReturnEnter(addr, stream, _) =>
      h.(returnedTo := h.returnedTo[stream := addr],
         madeFor := if addr in st.pools then h.madeFor else h.madeFor[|st.queues| := addr])
    case _ => h
  }

  function HistoryOf(h: History, st: State, config: Config, turns: seq<Turn>): History
    decreases |turns|
  {
    if turns != [] && Enabled(st, config, turns[0].a, turns[0].step) then
      var t := turns[0];
      HistoryOf(Record(h, st, t.a, t.step), Apply(st, config, t.a, t.step), config, turns[1..])
    else h
  }

  // ----- the invariant

  predicate MadeFor(h: History, q: QueueId, addr: Addr) {
    q in h.madeFor && h.madeFor[q] == addr
  }

  predicate ReturnedTo(h: History, stream: nat, addr: Addr) {
    stream in h.returnedTo && h.returnedTo[stream] == addr
  }

  predicate AskedFor(h: History, a: nat, addr: Addr) {
    a in h.asked && h.asked[a] == addr
  }

  /** All connections of a queue were returned under the host that it was made for. */
  ghost predicate QueueHosted(h: History, q: QueueId, conns: seq<Conn>) {
    q in h.madeFor && forall k :: 0 <= k < |conns| ==> ReturnedTo(h, conns[k].stream, h.madeFor[q])
  }

  predicate TaskHosted(h: History, a: nat, pc: Pc) {
    match pc
    case GetWaiting(q) => q in h.madeFor && AskedFor(h, a, h.madeFor[q])
    case GetLocked(q) => q in h.madeFor && AskedFor(h, a, h.madeFor[q])
    case HitFound(q, stream) => a in h.asked && ReturnedTo(h, stream, h.asked[a])
    case HitCounted(q, stream) => a in h.asked && ReturnedTo(h, stream, h.asked[a])
    case ReturnWaiting(q, stream) => q in h.madeFor && ReturnedTo(h, stream, h.madeFor[q])
    case ReturnLocked(q, stream) => q in h.madeFor && ReturnedTo(h, stream, h.madeFor[q])
    case SweepWaiting(addr, q) => MadeFor(h, q, addr)
    case SweepLocked(addr, q, _) => MadeFor(h, q, addr)
    case _ => true
  }

  ghost predicate Hosted(st: State, h: History) {
    && (forall addr :: addr in st.pools ==> MadeFor(h, st.pools[addr], addr))
    && (forall q :: 0 <= q < |st.queues| ==> QueueHosted(h, q, st.queues[q].conns))
    && (forall a :: 0 <= a < |st.tasks| ==> TaskHosted(h, a, st.tasks[a]))
  }

  // ----- the steps that are recorded

  lemma LookupHosted(st: State, h: History, config: Config, a: nat, step: Step)
    requires Hosted(st, h) && Enabled(st, config, a, step) && step.GetLookup?
    ensures Hosted(Apply(st, config, a, step), Record(h, st, a, step))
  {
    hide Expired, Streams, Refers;
    var next, later := Apply(st, config, a, step), Record(h, st, a, step);
    forall b | 0 <= b < |next.tasks| ensures TaskHosted(later, b, next.tasks[b]) {
      assert TaskHosted(h, b, st.tasks[b]);
    }
    forall q | 0 <= q < |next.queues| ensures QueueHosted(later, q, next.queues[q].conns) {
      assert QueueHosted(h, q, st.queues[q].conns);
    }
  }

  /** A stream in a caller's hand is in no queue and with no task, so naming its new host moves no other. */
  lemma NamedApart(st: State, h: History, a: nat, stream: nat, addr: Addr, madeFor: map<QueueId, Addr>)
    requires Placed(st) && Hosted(st, h) && a < |st.hands| && stream in st.hands[a]
    requires forall q :: q in h.madeFor ==> MadeFor(History(madeFor, h.asked, h.returnedTo), q, h.madeFor[q])
    ensures var later := History(madeFor, h.asked, h.returnedTo[stream := addr]);
            && (forall q :: 0 <= q < |st.queues| ==> QueueHosted(later, q, st.queues[q].conns))
            && (forall b :: 0 <= b < |st.tasks| ==> TaskHosted(later, b, st.tasks[b]))
  {
    var later := History(madeFor, h.asked, h.returnedTo[stream := addr]);
    assert stream in Content(st, InHand(a));
    forall q | 0 <= q < |st.queues| ensures QueueHosted(later, q, st.queues[q].conns) {
      assert QueueHosted(h, q, st.queues[q].conns);
      assert stream !in Content(st, InQueue(q));
    }
    forall b | 0 <= b < |st.tasks| ensures TaskHosted(later, b, st.tasks[b]) {
      assert TaskHosted(h, b, st.tasks[b]);
      assert stream !in Content(st, InTask(b));
    }
  }

  lemma ReturnHosted(st: State, h: History, config: Config, a: nat, step: Step)
    requires Placed(st) && Referenced(st) && Hosted(st, h) && Enabled(st, config, a, step) && step.ReturnEnter?
    requires forall q :: q in h.madeFor ==> q < |st.queues|
    ensures Hosted(Apply(st, config, a, step), Record(h, st, a, step))
  {
    hide Expired, Streams, Refers, Placed, TaskHosted, QueueHosted;
    var next, later := Apply(st, config, a, step), Record(h, st, a, step);
    NamedApart(st, h, a, step.stream, step.addr, later.madeFor);
    assert TaskHosted(later, a, next.tasks[a]) by {
      NewReturnHosted(later, a, next.tasks[a].q, step.stream, step.addr);
    }
    if step.addr !in st.pools {
      EmptyHosted(later, |st.queues|);
    }
  }

  lemma NewReturnHosted(h: History, a: nat, q: QueueId, stream: nat, addr: Addr)
    requires MadeFor(h, q, addr) && ReturnedTo(h, stream, addr)
    ensures TaskHosted(h, a, ReturnWaiting(q, stream))
  {
  }

  lemma EmptyHosted(h: History, q: QueueId)
    requires q in h.madeFor
    ensures QueueHosted(h, q, [])
  {
  }

  // ----- all other steps

  /** What a step does to one queue: nothing, or it leaves some of it, or it stores what its task carries. */
  lemma QueuesHosted(st: State, h: History, config: Config, a: nat, step: Step, q: QueueId)
    requires Hosted(st, h) && Enabled(st, config, a, step) && !step.ReturnEnter? && q < |st.queues|
    ensures var next := Apply(st, config, a, step);
            |next.queues| == |st.queues| && QueueHosted(h, q, next.queues[q].conns)
  {
    hide Expired, Streams, Refers;
    assert QueueHosted(h, q, st.queues[q].conns);
    assert TaskHosted(h, a, st.tasks[a]);
  }

  lemma FoundHosted(st: State, h: History, config: Config, a: nat)
    requires Hosted(st, h) && Enabled(st, config, a, PopFresh)
    ensures var next := Apply(st, config, a, PopFresh);
            a < |next.tasks| && TaskHosted(h, a, next.tasks[a])
  {
    hide Expired, Streams, Refers;
    assert TaskHosted(h, a, st.tasks[a]);
    assert QueueHosted(h, st.tasks[a].q, st.queues[st.tasks[a].q].conns);
  }

  lemma SweptHosted(st: State, h: History, config: Config, a: nat, addr: Addr)
    requires Hosted(st, h) && Enabled(st, config, a, SweepEnter(addr))
    ensures var next := Apply(st, config, a, SweepEnter(addr));
            a < |next.tasks| && TaskHosted(h, a, next.tasks[a])
  {
    hide QueueHosted;
  }

  /** The other steps go on with the same queue and stream, or with none. */
  lemma GoesOn(st: State, config: Config, a: nat, step: Step)
    requires Enabled(st, config, a, step)
    requires !step.ReturnEnter? && !step.GetLookup? && !step.PopFresh? && !step.SweepEnter?
    ensures var next := Apply(st, config, a, step);
            a < |st.tasks| && a < |next.tasks| && SameHost(st.tasks[a], next.tasks[a])
  {
    hide Expired, Streams, Refers;
  }

  predicate SameHost(before: Pc, after: Pc) {
    || after == before
    || (before.GetWaiting? && after == GetLocked(before.q))
    || (before.HitFound? && after == HitCounted(before.q, before.stream))
    || (before.ReturnWaiting? && after == ReturnLocked(before.q, before.stream))
    || ((before.SweepWaiting? || before.SweepLocked?) && after.SweepLocked?
        && after.addr == before.addr && after.q == before.q)
    || after.Idle? || after.Missed? || after.MissCounted? || after.TotalCounted? || after.Connecting?
    || after.Removing? || after.Clearing? || after.ClearWaiting? || after.ClearLocked?
  }

  lemma OwnTaskHosted(st: State, h: History, config: Config, a: nat, step: Step)
    requires Hosted(st, h) && Enabled(st, config, a, step) && !step.ReturnEnter? && !step.GetLookup?
    ensures var next := Apply(st, config, a, step);
            a < |next.tasks| && TaskHosted(h, a, next.tasks[a])
  {
    hide Enabled, Apply, QueueHosted;
    if step.PopFresh? {
      FoundHosted(st, h, config, a);
    } else if step.SweepEnter? {
      SweptHosted(st, h, config, a, step.addr);
    } else {
      GoesOn(st, config, a, step);
    }
  }

  lemma PoolsHosted(st: State, h: History, config: Config, a: nat, step: Step)
    requires Hosted(st, h) && Enabled(st, config, a, step) && !step.ReturnEnter?
    ensures var next := Apply(st, config, a, step);
            forall addr :: addr in next.pools ==> MadeFor(h, next.pools[addr], addr)
  {
    hide Expired, Streams, Refers;
  }

  lemma HostedStep(st: State, h: History, config: Config, a: nat, step: Step)
    requires Safe(st, config) && Hosted(st, h) && Enabled(st, config, a, step)
    requires forall q :: q in h.madeFor ==> q < |st.queues|
    ensures Hosted(Apply(st, config, a, step), Record(h, st, a, step))
    ensures forall q :: q in Record(h, st, a, step).madeFor ==> q < |Apply(st, config, a, step).queues|
  {
    hide Enabled, Apply, TaskHosted, QueueHosted, Placed, Ordered, Bounded, Counted, Locked, Referenced;
    var next, later := Apply(st, config, a, step), Record(h, st, a, step);
    StepFramed(st, config, a, step);
    if step.GetLookup? {
      LookupHosted(st, h, config, a, step);
    } else if step.ReturnEnter? {
      ReturnHosted(st, h, config, a, step);
      NewQueueThere(st, config, a, step);
    } else {
      PoolsHosted(st, h, config, a, step);
      OwnTaskHosted(st, h, config, a, step);
      forall q | 0 <= q < |next.queues| ensures QueueHosted(h, q, next.queues[q].conns) {
        SameQueues(st, config, a, step);
        QueuesHosted(st, h, config, a, step, q);
      }
    }
  }

  lemma SameQueues(st: State, config: Config, a: nat, step: Step)
    requires Enabled(st, config, a, step) && !step.ReturnEnter?
    ensures |Apply(st, config, a, step).queues| == |st.queues|
  {
    hide Expired, Streams, Refers;
  }

  lemma NewQueueThere(st: State, config: Config, a: nat, step: Step)
    requires Enabled(st, config, a, step) && step.ReturnEnter?
    ensures step.addr !in st.pools ==> |Apply(st, config, a, step).queues| == |st.queues| + 1
  {
    hide Expired, Streams, Refers;
  }

  // ----- every run

  lemma {:induction false} HostedRun(st: State, h: History, config: Config, turns: seq<Turn>)
    requires Safe(st, config) && Hosted(st, h) && RunFrom(st, config, turns).Some?
    requires forall q :: q in h.madeFor ==> q < |st.queues|
    ensures Hosted(RunFrom(st, config, turns).value, HistoryOf(h, st, config, turns))
    decreases |turns|
  {
    hide Enabled, Apply, Safe, Hosted, Record;
    if turns != [] {
      var t := turns[0];
      HostedStep(st, h, config, t.a, t.step);
      SafeStep(st, config, t.a, t.step);
      HostedRun(Apply(st, config, t.a, t.step), Record(h, st, t.a, t.step), config, turns[1..]);
    }
  }

  lemma InitHosted(tasks: nat)
    ensures Hosted(Init(tasks), NOTHING_YET)
  {
  }

  /**
   On every run, the stream that a get has found was last returned under the host it asked for; and
   every queued stream is in a queue made for the host it was returned under.
   */
  lemma EveryGetHasItsHost(tasks: nat, config: Config, turns: seq<Turn>)
    requires RunFrom(Init(tasks), config, turns).Some?
    ensures var st, h := RunFrom(Init(tasks), config, turns).value, HistoryOf(NOTHING_YET, Init(tasks), config, turns);
            && (forall a :: 0 <= a < |st.tasks| && (st.tasks[a].HitFound? || st.tasks[a].HitCounted?)
                  ==> a in h.asked && ReturnedTo(h, st.tasks[a].stream, h.asked[a]))
            && (forall addr :: addr in st.pools && st.pools[addr] < |st.queues|
                  ==> forall k :: 0 <= k < |st.queues[st.pools[addr]].conns|
                        ==> ReturnedTo(h, st.queues[st.pools[addr]].conns[k].stream, addr))
  {
    hide RunFrom, HistoryOf, Safe;
    InitSafe(tasks, config);
    InitHosted(tasks);
    HostedRun(Init(tasks), NOTHING_YET, config, turns);
    var st, h := RunFrom(Init(tasks), config, turns).value, HistoryOf(NOTHING_YET, Init(tasks), config, turns);
    forall a | 0 <= a < |st.tasks| && (st.tasks[a].HitFound? || st.tasks[a].HitCounted?)
      ensures a in h.asked && ReturnedTo(h, st.tasks[a].stream, h.asked[a])
    {
      assert TaskHosted(h, a, st.tasks[a]);
    }
    forall addr | addr in st.pools && st.pools[addr] < |st.queues|
      ensures forall k :: 0 <= k < |st.queues[st.pools[addr]].conns|
                ==> ReturnedTo(h, st.queues[st.pools[addr]].conns[k].stream, addr)
    {
      assert QueueHosted(h, st.pools[addr], st.queues[st.pools[addr]].conns);
    }
  }

  // ----- which step a call takes

  /** A get goes to the queue of its host exactly when there is one, and its task has no other way to begin. */
  lemma LookupFinds(st: State, config: Config, a: nat, addr: Addr)
    requires Enabled(st, config, a, GetLookup(addr))
    ensures var next := Apply(st, config, a, GetLookup(addr));
            && (addr in st.pools <==> next.tasks[a].GetWaiting?) && (addr !in st.pools <==> next.tasks[a].Missed?)
            && (addr in st.pools ==> next.tasks[a].q == st.pools[addr])
            && next.queues == st.queues && next.pools == st.pools
  {
  }

  /** The front of the queue decides what a get does under the lock. */
  lemma GetChoice(st: State, config: Config, a: nat)
    requires a < |st.tasks| == |st.hands| && st.tasks[a].GetLocked? && st.tasks[a].q < |st.queues|
    ensures var conns := st.queues[st.tasks[a].q].conns;
            && (Enabled(st, config, a, PopEmpty) <==> |conns| == 0)
            && (|conns| > 0
                ==> var idle, age := st.clock - conns[0].lastUsed, st.clock - conns[0].createdAt;
                    && (Enabled(st, config, a, PopExpired) <==> idle > config.maxIdle || age > config.maxLifetime)
                    && (Enabled(st, config, a, PopFresh) <==> idle <= config.maxIdle && age <= config.maxLifetime))
  {
  }

  /** Only a call with keep-alive, in a pool with keep-alive, goes to the queue; only room lets it store. */
  lemma ReturnChoice(st: State, config: Config, a: nat, addr: Addr, stream: nat, keepAlive: bool)
    requires a < |st.tasks| == |st.hands|
    ensures st.tasks[a].Idle? && stream in st.hands[a]
        ==> (&& (Enabled(st, config, a, ReturnEnter(addr, stream, keepAlive)) <==> keepAlive && config.keepAlive)
             && (Enabled(st, config, a, ReturnDiscard(stream, keepAlive)) <==> !keepAlive || !config.keepAlive))
    ensures st.tasks[a].ReturnLocked? && st.tasks[a].q < |st.queues|
        ==> var n := |st.queues[st.tasks[a].q].conns|;
            && (Enabled(st, config, a, ReturnStore) <==> n < config.maxPerHost)
            && (Enabled(st, config, a, ReturnFull) <==> n >= config.maxPerHost)
  {
  }
}
