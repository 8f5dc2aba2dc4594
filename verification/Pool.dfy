/**
 The connection pool under every interleaving. Each task is a program counter; a step is one map
 operation, one lock operation, one change of a queue under its lock, or one counter update.
 Queues have an identity of their own, because the map entry of a host may be removed, and
 replaced, while a task still holds or waits for the queue it looked up.
 */
module Pool {
  import opened Bytes
  import opened HostQueue

  type Addr = nat
  type QueueId = nat

  const U64: nat := 0x1_0000_0000_0000_0000

  datatype Pc =
    | Idle
    // get_connection
    | GetWaiting(q: QueueId)
    | GetLocked(q: QueueId)
    | HitFound(q: QueueId, stream: nat)    // popped, before hits += 1
    | HitCounted(q: QueueId, stream: nat)  // before reused += 1
    | Missed                               // before misses += 1
    | MissCounted                          // before total += 1
    | TotalCounted                         // before active += 1
    | Connecting
    // return_connection
    | ReturnWaiting(q: QueueId, stream: nat)
    | ReturnLocked(q: QueueId, stream: nat)
    // cleanup_expired_connections, one host
    | SweepWaiting(addr: Addr, q: QueueId)
    | SweepLocked(addr: Addr, q: QueueId, next: nat)
    | Removing(addr: Addr)
    // clear: between hosts, and at one host; `pending` are the queues still to be visited
    | Clearing(pending: set<QueueId>)
    | ClearWaiting(q: QueueId, pending: set<QueueId>)
    | ClearLocked(q: QueueId, pending: set<QueueId>)

  datatype Guarded = Guarded(conns: seq<Conn>, holder: Option<nat>)

  datatype State = State(
    pools: map<Addr, QueueId>,
    queues: seq<Guarded>,
    tasks: seq<Pc>,
    hands: seq<set<nat>>,  // the streams each task's caller holds
    closed: set<nat>,
    issued: nat,           // streams are numbered in the order they are opened
    clock: Time,
    total: nat,
    active: nat,
    reused: nat,
    hits: nat,
    misses: nat,
    returned: nat,         // how many return_connection calls have counted down `active`
    failed: nat,           // how many connection attempts have failed
    discarded: nat)        // how many streams callers have dropped without returning them

  datatype Step =
    | Tick(now: Time)
    | GetLookup(addr: Addr)
    | GetLock
    | PopExpired
    | PopFresh
    | PopEmpty
    | CountHit
    | CountReuse
    | CountMiss
    | CountTotal
    | CountActive
    | Connected
    | ConnectFailed
    | ReturnDiscard(stream: nat, keepAlive: bool)
    | ReturnEnter(addr: Addr, stream: nat, keepAlive: bool)
    | ReturnLock
    | ReturnFull
    | ReturnStore
    | SweepEnter(addr: Addr)
    | SweepLock
    | SweepDrop
    | SweepKeep
    | SweepDone
    | RemoveEntry
    | ClearBegin
    | ClearEnter(addr: Addr)
    | ClearLock
    | ClearQueue
    | ClearMap
    | FreeQueue(q: QueueId)  // the last reference to a queue is dropped
    | HandOver(other: nat, stream: nat)  // the caller moves a stream to another task
    | Discard(stream: nat)               // the caller drops a stream

  function Init(tasks: nat): State {
    State(map[], [], seq(tasks, _ => Idle), seq(tasks, _ => {}), {}, 0, 0, 0, 0, 0, 0, 0, 0, 0, 0)
  }

  // ----- where streams are

  datatype Place = InQueue(q: QueueId) | InTask(a: nat) | InHand(a: nat) | Closed

  function Carried(pc: Pc): set<nat> {
    match pc
    case HitFound(_, s) => {s}
    case HitCounted(_, s) => {s}
    case ReturnWaiting(_, s) => {s}
    case ReturnLocked(_, s) => {s}
    case _ => {}
  }

  function Content(st: State, p: Place): set<nat> {
    match p
    case InQueue(q) => if q < |st.queues| then Streams(st.queues[q].conns) else {}
    case InTask(a) => if a < |st.tasks| then Carried(st.tasks[a]) else {}
    case InHand(a) => if a < |st.hands| then st.hands[a] else {}
    case Closed => st.closed
  }

  // ----- locks and references

  /** The queue whose lock a task holds at `pc`. */
  function Holds(pc: Pc): Option<QueueId> {
    match pc
    case GetLocked(q) => Some(q)
    case HitFound(q, _) => Some(q)
    case HitCounted(q, _) => Some(q)
    case ReturnLocked(q, _) => Some(q)
    case SweepLocked(_, q, _) => Some(q)
    case ClearLocked(q, _) => Some(q)
    case _ => None
  }

  /** The queue a task has a reference to. */
  function Refers(pc: Pc): Option<QueueId> {
    match pc
    case GetWaiting(q) => Some(q)
    case ReturnWaiting(q, _) => Some(q)
    case SweepWaiting(_, q) => Some(q)
    case ClearWaiting(q, _) => Some(q)
    case _ => Holds(pc)
  }

  predicate Free(st: State, q: QueueId) {
    q < |st.queues| && st.queues[q].holder.None?
  }

  // ----- the steps

  predicate Enabled(st: State, config: Config, a: nat, step: Step) {
    && a < |st.tasks| == |st.hands|
    && var pc := st.tasks[a];
       match step
       case Tick(now) => st.clock <= now
       case GetLookup(_) => pc.Idle?
       case GetLock => pc.GetWaiting? && Free(st, pc.q)
       case PopExpired =>
         && pc.GetLocked? && pc.q < |st.queues| && st.queues[pc.q].conns != []
         && Expired(st.queues[pc.q].conns[0], st.clock, config)
       case PopFresh =>
         && pc.GetLocked? && pc.q < |st.queues| && st.queues[pc.q].conns != []
         && !Expired(st.queues[pc.q].conns[0], st.clock, config)
       case PopEmpty => pc.GetLocked? && pc.q < |st.queues| && st.queues[pc.q].conns == []
       case CountHit => pc.HitFound?
       case CountReuse => pc.HitCounted? && pc.q < |st.queues|
       case CountMiss => pc.Missed?
       case CountTotal => pc.MissCounted?
       case CountActive => pc.TotalCounted?
       case Connected => pc.Connecting?
       case ConnectFailed => pc.Connecting?
       case ReturnDiscard(s, keepAlive) => pc.Idle? && s in st.hands[a] && (!keepAlive || !config.keepAlive)
       case ReturnEnter(_, s, keepAlive) => pc.Idle? && s in st.hands[a] && keepAlive && config.keepAlive
       case ReturnLock => pc.ReturnWaiting? && Free(st, pc.q)
       case ReturnFull =>
         pc.ReturnLocked? && pc.q < |st.queues| && |st.queues[pc.q].conns| >= config.maxPerHost
       case ReturnStore =>
         pc.ReturnLocked? && pc.q < |st.queues| && |st.queues[pc.q].conns| < config.maxPerHost
       case SweepEnter(addr) => pc.Idle? && addr in st.pools
       case SweepLock => pc.SweepWaiting? && Free(st, pc.q)
       case SweepDrop =>
         && pc.SweepLocked? && pc.q < |st.queues| && pc.next < |st.queues[pc.q].conns|
         && Expired(st.queues[pc.q].conns[pc.next], st.clock, config)
       case SweepKeep =>
         && pc.SweepLocked? && pc.q < |st.queues| && pc.next < |st.queues[pc.q].conns|
         && !Expired(st.queues[pc.q].conns[pc.next], st.clock, config)
       case SweepDone => pc.SweepLocked? && pc.q < |st.queues| && pc.next >= |st.queues[pc.q].conns|
       case RemoveEntry => pc.Removing?
       case ClearBegin => pc.Idle?
       case ClearEnter(addr) => pc.Clearing? && addr in st.pools
       case ClearLock => pc.ClearWaiting? && Free(st, pc.q)
       case ClearQueue => pc.ClearLocked? && pc.q < |st.queues|
       case ClearMap => pc.Clearing? && pc.pending !! st.pools.Values
       case FreeQueue(q) =>
         && q < |st.queues| && q !in st.pools.Values
         && forall b :: 0 <= b < |st.tasks| ==> Refers(st.tasks[b]) != Some(q)
       case HandOver(b, s) => s in st.hands[a] && b < |st.tasks|
       case Discard(s) => s in st.hands[a]
  }

  function Goto(st: State, a: nat, pc: Pc): State
    requires a < |st.tasks|
  {
    st.(tasks := st.tasks[a := pc])
  }

  function SetConns(st: State, q: QueueId, conns: seq<Conn>): State
    requires q < |st.queues|
  {
    st.(queues := st.queues[q := st.queues[q].(conns := conns)])
  }

  function SetHolder(st: State, q: QueueId, holder: Option<nat>): State
    requires q < |st.queues|
  {
    st.(queues := st.queues[q := st.queues[q].(holder := holder)])
  }

  function Close(st: State, streams: set<nat>): State {
    st.(closed := st.closed + streams)
  }

  /** `fetch_sub(1)` on the 64-bit counter. */
  function CountReturn(st: State): State {
    st.(active := (st.active + U64 - 1) % U64, returned := st.returned + 1)
  }

  function Apply(st: State, config: Config, a: nat, step: Step): State
    requires Enabled(st, config, a, step)
  {
    var pc := st.tasks[a];
    match step
    case Tick(now) => st.(clock := now)
    case GetLookup(addr) => Goto(st, a, if addr in st.pools then GetWaiting(st.pools[addr]) else Missed)
    case GetLock => Goto(SetHolder(st, pc.q, Some(a)), a, GetLocked(pc.q))
    case PopExpired =>
      var conns := st.queues[pc.q].conns;
      Close(SetConns(st, pc.q, conns[1..]), {conns[0].stream})
    case PopFresh =>
      var conns := st.queues[pc.q].conns;
      Goto(SetConns(st, pc.q, conns[1..]), a, HitFound(pc.q, conns[0].stream))
    case PopEmpty => Goto(SetHolder(st, pc.q, None), a, Missed)
    case CountHit => Goto(st.(hits := st.hits + 1), a, HitCounted(pc.q, pc.stream))
    case CountReuse =>
      var unlocked := SetHolder(st, pc.q, None);
      Goto(unlocked.(reused := st.reused + 1, hands := st.hands[a := st.hands[a] + {pc.stream}]), a, Idle)
    case CountMiss => Goto(st.(misses := st.misses + 1), a, MissCounted)
    case CountTotal => Goto(st.(total := st.total + 1), a, TotalCounted)
    case CountActive => Goto(st.(active := (st.active + 1) % U64), a, Connecting)
    case Connected =>
      Goto(st.(issued := st.issued + 1, hands := st.hands[a := st.hands[a] + {st.issued}]), a, Idle)
    case ConnectFailed => Goto(st.(failed := st.failed + 1), a, Idle)
    case ReturnDiscard(s, _) =>
      CountReturn(Close(st.(hands := st.hands[a := st.hands[a] - {s}]), {s}))
    case ReturnEnter(addr, s, _) =>
      var taken := st.(hands := st.hands[a := st.hands[a] - {s}]);
      if addr in st.pools then Goto(taken, a, ReturnWaiting(st.pools[addr], s))
      else
        var q := |st.queues|;
        Goto(taken.(queues := st.queues + [Guarded([], None)], pools := st.pools[addr := q]), a, ReturnWaiting(q, s))
    case ReturnLock => Goto(SetHolder(st, pc.q, Some(a)), a, ReturnLocked(pc.q, pc.stream))
    case ReturnFull => CountReturn(Close(Goto(SetHolder(st, pc.q, None), a, Idle), {pc.stream}))
    case ReturnStore =>
      var stored := SetConns(st, pc.q, st.queues[pc.q].conns + [NewConn(pc.stream, st.clock)]);
      CountReturn(Goto(SetHolder(stored, pc.q, None), a, Idle))
    case SweepEnter(addr) => Goto(st, a, SweepWaiting(addr, st.pools[addr]))
    case SweepLock => Goto(SetHolder(st, pc.q, Some(a)), a, SweepLocked(pc.addr, pc.q, 0))
    case SweepDrop =>
      var conns := st.queues[pc.q].conns;
      Close(SetConns(st, pc.q, conns[..pc.next] + conns[pc.next + 1..]), {conns[pc.next].stream})
    case SweepKeep => Goto(st, a, SweepLocked(pc.addr, pc.q, pc.next + 1))
    case SweepDone =>
      Goto(SetHolder(st, pc.q, None), a, if st.queues[pc.q].conns == [] then Removing(pc.addr) else Idle)
    case RemoveEntry => Goto(st.(pools := st.pools - {pc.addr}), a, Idle)
    case ClearBegin => Goto(st, a, Clearing(st.pools.Values))
    case ClearEnter(addr) => Goto(st, a, ClearWaiting(st.pools[addr], pc.pending - {st.pools[addr]}))
    case ClearLock => Goto(SetHolder(st, pc.q, Some(a)), a, ClearLocked(pc.q, pc.pending))
    case ClearQueue =>
      var conns := st.queues[pc.q].conns;
      Close(Goto(SetHolder(SetConns(st, pc.q, []), pc.q, None), a, Clearing(pc.pending)), Streams(conns))
    case ClearMap => Goto(st.(pools := map[]), a, Idle)
    case FreeQueue(q) => Close(SetConns(st, q, []), Streams(st.queues[q].conns))
    case HandOver(b, s) =>
      var given := st.hands[a := st.hands[a] - {s}];
      st.(hands := given[b := given[b] + {s}])
    case Discard(s) =>
      Close(st.(hands := st.hands[a := st.hands[a] - {s}], discarded := st.discarded + 1), {s})
  }

  // ----- references and locks

  /** References lead to queues. */
  ghost predicate Referenced(st: State) {
    && |st.tasks| == |st.hands|
    && (forall addr :: addr in st.pools ==> st.pools[addr] < |st.queues|)
    && (forall a :: 0 <= a < |st.tasks| && Refers(st.tasks[a]).Some? ==> Refers(st.tasks[a]).value < |st.queues|)
  }

  /** A queue's lock is held by the one task that is inside. */
  ghost predicate Locked(st: State) {
    && (forall a :: 0 <= a < |st.tasks| && Holds(st.tasks[a]).Some?
          ==> (&& Holds(st.tasks[a]).value < |st.queues|
               && st.queues[Holds(st.tasks[a]).value].holder == Some(a)))
    && (forall q :: 0 <= q < |st.queues| && st.queues[q].holder.Some?
          ==> (&& st.queues[q].holder.value < |st.tasks|
               && Holds(st.tasks[st.queues[q].holder.value]) == Some(q)))
  }

  ghost predicate Linked(st: State) {
    Referenced(st) && Locked(st)
  }

  /** Who holds queue `q` when task `a` has gone from `before` to `after`. */
  function HolderAfter(st: State, a: nat, before: Pc, after: Pc, q: QueueId): Option<nat> {
    if q >= |st.queues| then None
    else if Holds(after) == Holds(before) then st.queues[q].holder
    else if Holds(after) == Some(q) then Some(a)
    else if Holds(before) == Some(q) then None
    else st.queues[q].holder
  }

  /** What every step does to locks and references: only its own task's change. */
  ghost predicate Framed(st: State, next: State, a: nat) {
    && a < |st.tasks| == |next.tasks| == |next.hands|
    && next.tasks == st.tasks[a := next.tasks[a]]
    && |st.queues| <= |next.queues|
    && (forall addr :: addr in next.pools ==> next.pools[addr] < |next.queues|)
    && (Refers(next.tasks[a]).Some? ==> Refers(next.tasks[a]).value < |next.queues|)
    && (forall q :: 0 <= q < |next.queues|
          ==> next.queues[q].holder == HolderAfter(st, a, st.tasks[a], next.tasks[a], q))
    && (Holds(next.tasks[a]) == Holds(st.tasks[a]) || Holds(next.tasks[a]).None?
        || Free(st, Holds(next.tasks[a]).value))
  }

  lemma GetFramed(st: State, config: Config, a: nat, step: Step)
    requires Referenced(st) && Enabled(st, config, a, step)
    requires step.GetLookup? || step.GetLock? || step.PopExpired? || step.PopFresh? || step.PopEmpty?
    ensures Framed(st, Apply(st, config, a, step), a)
  {
  }

  lemma CountFramed(st: State, config: Config, a: nat, step: Step)
    requires Referenced(st) && Enabled(st, config, a, step)
    requires step.CountHit? || step.CountReuse? || step.CountMiss? || step.CountTotal? || step.CountActive?
          || step.Connected? || step.ConnectFailed?
    ensures Framed(st, Apply(st, config, a, step), a)
  {
  }

  lemma ReturnFramed(st: State, config: Config, a: nat, step: Step)
    requires Referenced(st) && Enabled(st, config, a, step)
    requires step.ReturnDiscard? || step.ReturnEnter? || step.ReturnLock? || step.ReturnFull? || step.ReturnStore?
    ensures Framed(st, Apply(st, config, a, step), a)
  {
  }

  lemma SweepFramed(st: State, config: Config, a: nat, step: Step)
    requires Referenced(st) && Enabled(st, config, a, step)
    requires step.SweepEnter? || step.SweepLock? || step.SweepDrop?
    ensures Framed(st, Apply(st, config, a, step), a)
  {
  }

  lemma SweepOnFramed(st: State, config: Config, a: nat, step: Step)
    requires Referenced(st) && Enabled(st, config, a, step)
    requires step.SweepKeep? || step.SweepDone? || step.RemoveEntry?
    ensures Framed(st, Apply(st, config, a, step), a)
  {
  }

  lemma OtherFramed(st: State, config: Config, a: nat, step: Step)
    requires Referenced(st) && Enabled(st, config, a, step)
    requires step.Tick? || step.FreeQueue? || step.HandOver? || step.Discard?
    ensures Framed(st, Apply(st, config, a, step), a)
  {
  }

  lemma ClearFramed(st: State, config: Config, a: nat, step: Step)
    requires Referenced(st) && Enabled(st, config, a, step)
    requires step.ClearBegin? || step.ClearEnter? || step.ClearLock?
    ensures Framed(st, Apply(st, config, a, step), a)
  {
    hide Expired, Streams;
  }

  lemma ClearEndsFramed(st: State, config: Config, a: nat, step: Step)
    requires Referenced(st) && Enabled(st, config, a, step)
    requires step.ClearQueue? || step.ClearMap?
    ensures Framed(st, Apply(st, config, a, step), a)
  {
    hide Expired, Streams;
  }

  lemma FramedReferenced(st: State, next: State, a: nat)
    requires Referenced(st) && Framed(st, next, a)
    ensures Referenced(next)
  {
  }

  lemma FramedHolders(st: State, next: State, a: nat, q: QueueId)
    requires Locked(st) && Framed(st, next, a)
    requires q < |next.queues| && next.queues[q].holder.Some?
    ensures next.queues[q].holder.value < |next.tasks|
    ensures Holds(next.tasks[next.queues[q].holder.value]) == Some(q)
  {
    hide Holds, Refers;
    assert next.queues[q].holder == HolderAfter(st, a, st.tasks[a], next.tasks[a], q);
  }

  lemma FramedHeld(st: State, next: State, a: nat, b: nat)
    requires Locked(st) && Framed(st, next, a)
    requires b < |next.tasks| && Holds(next.tasks[b]).Some?
    ensures Holds(next.tasks[b]).value < |next.queues|
    ensures next.queues[Holds(next.tasks[b]).value].holder == Some(b)
  {
    hide Holds;
  }

  lemma FramedLocked(st: State, next: State, a: nat)
    requires Locked(st) && Framed(st, next, a)
    ensures Locked(next)
  {
    hide Holds, Framed;
    forall q | 0 <= q < |next.queues| && next.queues[q].holder.Some?
      ensures next.queues[q].holder.value < |next.tasks|
           && Holds(next.tasks[next.queues[q].holder.value]) == Some(q)
    {
      FramedHolders(st, next, a, q);
    }
    forall b | 0 <= b < |next.tasks| && Holds(next.tasks[b]).Some?
      ensures Holds(next.tasks[b]).value < |next.queues|
           && next.queues[Holds(next.tasks[b]).value].holder == Some(b)
    {
      FramedHeld(st, next, a, b);
    }
  }

  /** Two tasks are never inside the same queue. */
  lemma MutualExclusion(st: State, a: nat, b: nat, q: QueueId)
    requires Linked(st) && a < |st.tasks| && b < |st.tasks|
    requires Holds(st.tasks[a]) == Some(q) && Holds(st.tasks[b]) == Some(q)
    ensures a == b
  {
  }

  // ----- every stream is in exactly one place

  ghost predicate Distinct(conns: seq<Conn>) {
    forall i, j :: 0 <= i < j < |conns| ==> conns[i].stream != conns[j].stream
  }

  ghost predicate Placed(st: State) {
    && (forall p, s :: s in Content(st, p) ==> s < st.issued)
    && (forall p1, p2, s :: s in Content(st, p1) && s in Content(st, p2) ==> p1 == p2)
    && (forall s: nat :: s < st.issued ==> Somewhere(st, s))
    && (forall q :: 0 <= q < |st.queues| ==> Distinct(st.queues[q].conns))
  }

  ghost predicate Somewhere(st: State, s: nat) {
    exists p :: s in Content(st, p)
  }

  /** What a step moves. `Closed` to `Closed` with nothing stands for no move. */
  datatype Move = Move(streams: set<nat>, src: Place, dst: Place)

  ghost function MoveOf(st: State, config: Config, a: nat, step: Step): Move
    requires Enabled(st, config, a, step)
  {
    var pc := st.tasks[a];
    match step
    case PopExpired => Move({st.queues[pc.q].conns[0].stream}, InQueue(pc.q), Closed)
    case PopFresh => Move({st.queues[pc.q].conns[0].stream}, InQueue(pc.q), InTask(a))
    case CountReuse => Move({pc.stream}, InTask(a), InHand(a))
    case ReturnDiscard(s, _) => Move({s}, InHand(a), Closed)
    case ReturnEnter(_, s, _) => Move({s}, InHand(a), InTask(a))
    case ReturnFull => Move({pc.stream}, InTask(a), Closed)
    case ReturnStore => Move({pc.stream}, InTask(a), InQueue(pc.q))
    case SweepDrop => Move({st.queues[pc.q].conns[pc.next].stream}, InQueue(pc.q), Closed)
    case ClearQueue => Move(Streams(st.queues[pc.q].conns), InQueue(pc.q), Closed)
    case FreeQueue(q) => Move(Streams(st.queues[q].conns), InQueue(q), Closed)
    case HandOver(b, s) => Move({s}, InHand(a), InHand(b))
    case Discard(s) => Move({s}, InHand(a), Closed)
    case _ => Move({}, Closed, Closed)
  }

  ghost function ContentAfter(st: State, m: Move, p: Place): set<nat> {
    (Content(st, p) - (if p == m.src then m.streams else {})) + (if p == m.dst then m.streams else {})
  }

  /** The streams of a move leave one place and turn up in another; all else stays where it is. */
  ghost predicate Moves(st: State, next: State, m: Move) {
    && m.streams <= Content(st, m.src)
    && (forall p :: Content(next, p) == ContentAfter(st, m, p))
    && next.issued == st.issued
  }

  lemma StreamsDrop(conns: seq<Conn>, i: nat)
    requires Distinct(conns) && i < |conns|
    ensures Streams(conns[..i] + conns[i + 1..]) == Streams(conns) - {conns[i].stream}
    ensures Distinct(conns[..i] + conns[i + 1..])
  {
  }

  lemma StreamsPush(conns: seq<Conn>, c: Conn)
    ensures Streams(conns + [c]) == Streams(conns) + {c.stream}
    ensures Distinct(conns) && c.stream !in Streams(conns) ==> Distinct(conns + [c])
  {
  }

  lemma MovePlaced(st: State, next: State, m: Move)
    requires Placed(st) && Moves(st, next, m) && AllDistinct(next)
    ensures Placed(next)
  {
    forall s: nat | s < st.issued ensures Somewhere(next, s) {
      assert Somewhere(st, s);
      var p :| s in Content(st, p);
      assert s in Content(next, p) || s in Content(next, m.dst);
    }
  }

  /** The steps that take or give back a lock or go on in a queue move no stream. */
  lemma LockSteps(st: State, config: Config, a: nat, step: Step)
    requires Referenced(st) && Enabled(st, config, a, step)
    requires step.GetLock? || step.PopEmpty? || step.ReturnLock? || step.SweepLock? || step.SweepKeep?
          || step.SweepDone? || step.ClearLock?
    ensures forall p :: Content(Apply(st, config, a, step), p) == Content(st, p)
    ensures Apply(st, config, a, step).issued == st.issued
  {
  }

  /** Nor do those that only look up, count or change the map. */
  lemma OtherStill(st: State, config: Config, a: nat, step: Step)
    requires Referenced(st) && Enabled(st, config, a, step)
    requires step.Tick? || step.GetLookup? || step.CountHit? || step.CountMiss? || step.CountTotal?
          || step.CountActive? || step.ConnectFailed? || step.SweepEnter? || step.RemoveEntry? || step.ClearEnter?
          || step.ClearBegin? || step.ClearMap?
    ensures forall p :: Content(Apply(st, config, a, step), p) == Content(st, p)
    ensures Apply(st, config, a, step).issued == st.issued
  {
  }

  lemma NoMove(st: State, next: State)
    requires forall p :: Content(next, p) == Content(st, p)
    requires next.issued == st.issued
    ensures Moves(st, next, Move({}, Closed, Closed))
  {
  }

  ghost predicate AllDistinct(st: State) {
    forall q :: 0 <= q < |st.queues| ==> Distinct(st.queues[q].conns)
  }

  lemma PopMoves(st: State, config: Config, a: nat, step: Step)
    requires AllDistinct(st) && Enabled(st, config, a, step)
    requires step.PopExpired? || step.PopFresh?
    ensures Moves(st, Apply(st, config, a, step), MoveOf(st, config, a, step))
    ensures AllDistinct(Apply(st, config, a, step))
  {
    var conns := st.queues[st.tasks[a].q].conns;
    StreamsDrop(conns, 0);
    assert conns[..0] + conns[1..] == conns[1..];
  }

  lemma SweepMoves(st: State, config: Config, a: nat, step: Step)
    requires AllDistinct(st) && Enabled(st, config, a, step) && step.SweepDrop?
    ensures Moves(st, Apply(st, config, a, step), MoveOf(st, config, a, step))
    ensures AllDistinct(Apply(st, config, a, step))
  {
    StreamsDrop(st.queues[st.tasks[a].q].conns, st.tasks[a].next);
  }

  lemma ClearMoves(st: State, config: Config, a: nat, step: Step)
    requires AllDistinct(st) && Enabled(st, config, a, step) && step.ClearQueue?
    ensures Moves(st, Apply(st, config, a, step), MoveOf(st, config, a, step))
    ensures AllDistinct(Apply(st, config, a, step))
  {
    hide Expired, Refers;
  }

  lemma FreeMoves(st: State, config: Config, a: nat, step: Step)
    requires AllDistinct(st) && Enabled(st, config, a, step) && step.FreeQueue?
    ensures Moves(st, Apply(st, config, a, step), MoveOf(st, config, a, step))
    ensures AllDistinct(Apply(st, config, a, step))
  {
    hide Expired, Refers;
  }

  lemma ReturnMoves(st: State, config: Config, a: nat, step: Step)
    requires AllDistinct(st) && Enabled(st, config, a, step)
    requires step.ReturnDiscard? || step.ReturnEnter?
    ensures Moves(st, Apply(st, config, a, step), MoveOf(st, config, a, step))
    ensures AllDistinct(Apply(st, config, a, step))
  {
    hide Expired, Refers;
  }

  lemma HandMoves(st: State, config: Config, a: nat, step: Step)
    requires AllDistinct(st) && Enabled(st, config, a, step)
    requires step.HandOver? || step.Discard?
    ensures Moves(st, Apply(st, config, a, step), MoveOf(st, config, a, step))
    ensures AllDistinct(Apply(st, config, a, step))
  {
    hide Expired, Refers, Distinct, Streams;
  }

  lemma TaskMoves(st: State, config: Config, a: nat, step: Step)
    requires AllDistinct(st) && Enabled(st, config, a, step)
    requires step.CountReuse? || step.ReturnFull?
    ensures Moves(st, Apply(st, config, a, step), MoveOf(st, config, a, step))
    ensures AllDistinct(Apply(st, config, a, step))
  {
  }

  lemma StoreMoves(st: State, config: Config, a: nat, step: Step)
    requires Placed(st) && Enabled(st, config, a, step) && step.ReturnStore?
    ensures Moves(st, Apply(st, config, a, step), MoveOf(st, config, a, step))
    ensures AllDistinct(Apply(st, config, a, step))
  {
    var pc := st.tasks[a];
    StreamsPush(st.queues[pc.q].conns, NewConn(pc.stream, st.clock));
    assert pc.stream in Content(st, InTask(a));
    assert pc.stream !in Content(st, InQueue(pc.q));
  }

  lemma ConnectPlaced(st: State, config: Config, a: nat, step: Step)
    requires Placed(st) && Referenced(st) && Enabled(st, config, a, step) && step.Connected?
    ensures Placed(Apply(st, config, a, step))
  {
    var next := Apply(st, config, a, step);
    forall p ensures Content(next, p) == Content(st, p) + if p == InHand(a) then {st.issued} else {} {
    }
    forall s: nat | s < next.issued ensures Somewhere(next, s) {
      if s < st.issued {
        assert Somewhere(st, s);
        var p :| s in Content(st, p);
        assert s in Content(next, p);
      } else {
        assert s in Content(next, InHand(a));
      }
    }
  }

  lemma StillDistinct(st: State, config: Config, a: nat, step: Step)
    requires AllDistinct(st) && Enabled(st, config, a, step)
    requires MoveOf(st, config, a, step) == Move({}, Closed, Closed)
    ensures AllDistinct(Apply(st, config, a, step))
  {
  }

  /** The steps that move a stream. */
  predicate Moving(step: Step) {
    || step.PopExpired? || step.PopFresh? || step.SweepDrop? || step.ClearQueue? || step.FreeQueue?
    || step.ReturnDiscard? || step.ReturnEnter? || step.HandOver? || step.Discard?
    || step.CountReuse? || step.ReturnFull? || step.ReturnStore?
  }

  lemma MovingSteps(st: State, config: Config, a: nat, step: Step)
    requires Placed(st) && Enabled(st, config, a, step) && Moving(step)
    ensures Moves(st, Apply(st, config, a, step), MoveOf(st, config, a, step))
    ensures AllDistinct(Apply(st, config, a, step))
  {
    hide Enabled, Apply, Content, MoveOf, Moves, AllDistinct;
    PlacedDistinct(st);
    match step {
      case PopExpired => PopMoves(st, config, a, step);
      case PopFresh => PopMoves(st, config, a, step);
      case SweepDrop => SweepMoves(st, config, a, step);
      case ClearQueue => ClearMoves(st, config, a, step);
      case FreeQueue(_) => FreeMoves(st, config, a, step);
      case ReturnDiscard(_, _) => ReturnMoves(st, config, a, step);
      case ReturnEnter(_, _, _) => ReturnMoves(st, config, a, step);
      case CountReuse => TaskMoves(st, config, a, step);
      case ReturnFull => TaskMoves(st, config, a, step);
      case ReturnStore => StoreMoves(st, config, a, step);
      case _ => HandMoves(st, config, a, step);
    }
  }

  lemma PlacedDistinct(st: State)
    requires Placed(st)
    ensures AllDistinct(st)
  {
  }

  lemma PlacedStep(st: State, config: Config, a: nat, step: Step)
    requires Placed(st) && Referenced(st) && Enabled(st, config, a, step)
    ensures Placed(Apply(st, config, a, step))
  {
    hide Enabled, Apply, Content, Placed, Moves, AllDistinct;
    var next, m := Apply(st, config, a, step), MoveOf(st, config, a, step);
    PlacedDistinct(st);
    if step.Connected? {
      ConnectPlaced(st, config, a, step);
    } else if Moving(step) {
      MovingSteps(st, config, a, step);
      MovePlaced(st, next, m);
    } else {
      if step.GetLock? || step.PopEmpty? || step.ReturnLock? || step.SweepLock? || step.SweepKeep?
      || step.SweepDone? || step.ClearLock? {
        LockSteps(st, config, a, step);
      } else {
        OtherStill(st, config, a, step);
      }
      NoMove(st, next);
      StillDistinct(st, config, a, step);
      MovePlaced(st, next, m);
    }
  }

  // ----- queues: bounded, and in return order

  /** All that a step can do to the connections of one queue. */
  ghost predicate QueueStep(before: seq<Conn>, after: seq<Conn>, clock: Time, config: Config) {
    || after == before
    || after == []
    || (exists i :: 0 <= i < |before| && after == DropAt(before, i))
    || (|before| < config.maxPerHost && exists s :: after == before + [NewConn(s, clock)])
  }

  function DropAt(conns: seq<Conn>, i: nat): seq<Conn>
    requires i < |conns|
  {
    conns[..i] + conns[i + 1..]
  }

  ghost predicate QueuesStep(st: State, next: State, config: Config) {
    && |st.queues| <= |next.queues|
    && st.clock <= next.clock
    && forall q :: 0 <= q < |next.queues|
         ==> QueueStep(if q < |st.queues| then st.queues[q].conns else [], next.queues[q].conns, st.clock, config)
  }

  /** The steps that change one queue's connections under its lock. */
  lemma OneQueueSteps(st: State, config: Config, a: nat, step: Step)
    requires Enabled(st, config, a, step)
    requires step.PopExpired? || step.PopFresh? || step.SweepDrop? || step.ReturnStore?
    ensures QueuesStep(st, Apply(st, config, a, step), config)
  {
    hide Expired, Streams, Refers;
    var pc, next := st.tasks[a], Apply(st, config, a, step);
    if step.PopExpired? || step.PopFresh? {
      assert next.queues[pc.q].conns == DropAt(st.queues[pc.q].conns, 0);
    } else if step.SweepDrop? {
      assert next.queues[pc.q].conns == DropAt(st.queues[pc.q].conns, pc.next);
    } else {
      assert next.queues[pc.q].conns == st.queues[pc.q].conns + [NewConn(pc.stream, st.clock)];
    }
  }

  /** All others leave every queue as it is, or empty it. */
  lemma OtherQueueSteps(st: State, config: Config, a: nat, step: Step)
    requires Enabled(st, config, a, step)
    requires !step.PopExpired? && !step.PopFresh? && !step.SweepDrop? && !step.ReturnStore?
    ensures var next := Apply(st, config, a, step);
            && |st.queues| <= |next.queues| && st.clock <= next.clock
            && forall q :: 0 <= q < |next.queues|
                 ==> (|| next.queues[q].conns == []
                      || (q < |st.queues| && next.queues[q].conns == st.queues[q].conns))
  {
    hide Expired, Streams, Refers;
  }

  lemma EveryQueueSteps(st: State, config: Config, a: nat, step: Step)
    requires Enabled(st, config, a, step)
    ensures QueuesStep(st, Apply(st, config, a, step), config)
  {
    hide Enabled, Apply;
    if step.PopExpired? || step.PopFresh? || step.SweepDrop? || step.ReturnStore? {
      OneQueueSteps(st, config, a, step);
    } else {
      OtherQueueSteps(st, config, a, step);
    }
  }

  ghost predicate Ordered(st: State) {
    forall q :: 0 <= q < |st.queues| ==> OrderedUpTo(st.queues[q].conns, st.clock)
  }

  ghost predicate OrderedUpTo(conns: seq<Conn>, clock: Time) {
    InReturnOrder(conns) && forall k :: 0 <= k < |conns| ==> conns[k].lastUsed <= clock
  }

  ghost predicate Bounded(st: State, config: Config) {
    forall q :: 0 <= q < |st.queues| ==> |st.queues[q].conns| <= config.maxPerHost
  }

  lemma OrderedStep(st: State, next: State, config: Config)
    requires Ordered(st) && QueuesStep(st, next, config)
    ensures Ordered(next)
  {
    hide InReturnOrder, QueueStep;
    forall q | 0 <= q < |next.queues| ensures OrderedUpTo(next.queues[q].conns, next.clock) {
      var before := if q < |st.queues| then st.queues[q].conns else [];
      QueueOrdered(before, next.queues[q].conns, st.clock, next.clock, config);
    }
  }

  lemma QueueOrdered(before: seq<Conn>, after: seq<Conn>, clock: Time, later: Time, config: Config)
    requires before == [] || OrderedUpTo(before, clock)
    requires QueueStep(before, after, clock, config) && clock <= later
    ensures OrderedUpTo(after, later)
  {
  }

  lemma BoundedStep(st: State, next: State, config: Config)
    requires Bounded(st, config) && QueuesStep(st, next, config)
    ensures Bounded(next, config)
  {
  }

  // ----- counters

  function Count(tasks: seq<Pc>, at: Pc -> bool): nat {
    if tasks == [] then 0
    else Count(tasks[..|tasks| - 1], at) + if at(tasks[|tasks| - 1]) then 1 else 0
  }

  function One(b: bool): nat {
    if b then 1 else 0
  }

  lemma {:induction false} CountUpdate(tasks: seq<Pc>, a: nat, pc: Pc, at: Pc -> bool)
    requires a < |tasks|
    ensures Count(tasks[a := pc], at) + One(at(tasks[a])) == Count(tasks, at) + One(at(pc))
    decreases |tasks|
  {
    var n := |tasks| - 1;
    if a < n {
      CountUpdate(tasks[..n], a, pc, at);
      assert tasks[a := pc][..n] == tasks[..n][a := pc];
    } else {
      assert tasks[a := pc][..n] == tasks[..n];
    }
  }

  function BetweenHitAndReuse(pc: Pc): bool { pc.HitCounted? }

  function BetweenMissAndTotal(pc: Pc): bool { pc.MissCounted? }

  function BetweenTotalAndActive(pc: Pc): bool { pc.TotalCounted? }

  function Opening(pc: Pc): bool { pc.TotalCounted? || pc.Connecting? }

  function Returning(pc: Pc): bool { pc.ReturnWaiting? || pc.ReturnLocked? }

  /** How many streams the callers hold. */
  function Held(hands: seq<set<nat>>): nat {
    if hands == [] then 0 else Held(hands[..|hands| - 1]) + |hands[|hands| - 1]|
  }

  lemma {:induction false} HeldUpdate(hands: seq<set<nat>>, a: nat, hand: set<nat>)
    requires a < |hands|
    ensures Held(hands[a := hand]) + |hands[a]| == Held(hands) + |hand|
    decreases |hands|
  {
    var n := |hands| - 1;
    if a < n {
      HeldUpdate(hands[..n], a, hand);
      assert hands[a := hand][..n] == hands[..n][a := hand];
    } else {
      assert hands[a := hand][..n] == hands[..n];
    }
  }

  /**
   Hits are reuses and misses are new connections, up to the calls that are between two counter
   updates; `active` is what the misses have counted up and the returns down, modulo 2^64. Every
   new connection was opened, failed or is being opened, and what callers hold is what was handed
   out less what came back or was dropped.
   */
  ghost predicate Counted(st: State) {
    && st.total == st.issued + st.failed + Count(st.tasks, Opening)
    && Held(st.hands) + Count(st.tasks, Returning) + st.returned + st.discarded == st.issued + st.reused
    && st.hits == st.reused + Count(st.tasks, BetweenHitAndReuse)
    && st.misses == st.total + Count(st.tasks, BetweenMissAndTotal)
    && st.active == (st.total - Count(st.tasks, BetweenTotalAndActive) - st.returned) % U64
  }

  /** A step changes hits and reuses together with its own task's place between the two updates. */
  lemma HitsChange(st: State, config: Config, a: nat, step: Step)
    requires Enabled(st, config, a, step)
    ensures var next := Apply(st, config, a, step);
            next.hits - next.reused - One(BetweenHitAndReuse(next.tasks[a]))
            == st.hits - st.reused - One(BetweenHitAndReuse(st.tasks[a]))
  {
    hide Expired, Streams, Refers;
  }

  lemma MissesChange(st: State, config: Config, a: nat, step: Step)
    requires Enabled(st, config, a, step)
    ensures var next := Apply(st, config, a, step);
            next.misses - next.total - One(BetweenMissAndTotal(next.tasks[a]))
            == st.misses - st.total - One(BetweenMissAndTotal(st.tasks[a]))
  {
    hide Expired, Streams, Refers;
  }

  lemma OpeningChange(st: State, config: Config, a: nat, step: Step)
    requires Enabled(st, config, a, step)
    ensures var next := Apply(st, config, a, step);
            next.total - next.issued - next.failed - One(Opening(next.tasks[a]))
            == st.total - st.issued - st.failed - One(Opening(st.tasks[a]))
  {
    hide Expired, Streams, Refers;
  }

  lemma HitsStep(st: State, config: Config, a: nat, step: Step)
    requires Enabled(st, config, a, step) && Framed(st, Apply(st, config, a, step), a)
    requires st.hits == st.reused + Count(st.tasks, BetweenHitAndReuse)
    ensures var next := Apply(st, config, a, step);
            next.hits == next.reused + Count(next.tasks, BetweenHitAndReuse)
  {
    hide Count, Enabled, Apply;
    HitsChange(st, config, a, step);
    CountUpdate(st.tasks, a, Apply(st, config, a, step).tasks[a], BetweenHitAndReuse);
  }

  lemma MissesStep(st: State, config: Config, a: nat, step: Step)
    requires Enabled(st, config, a, step) && Framed(st, Apply(st, config, a, step), a)
    requires st.misses == st.total + Count(st.tasks, BetweenMissAndTotal)
    ensures var next := Apply(st, config, a, step);
            next.misses == next.total + Count(next.tasks, BetweenMissAndTotal)
  {
    hide Count, Enabled, Apply;
    MissesChange(st, config, a, step);
    CountUpdate(st.tasks, a, Apply(st, config, a, step).tasks[a], BetweenMissAndTotal);
  }

  /** How a step changes what `active` is made of: one up, one down, or nothing. */
  lemma ActiveChange(st: State, config: Config, a: nat, step: Step)
    requires Enabled(st, config, a, step)
    ensures var next := Apply(st, config, a, step);
            var change := (next.total - One(BetweenTotalAndActive(next.tasks[a])) - next.returned)
                        - (st.total - One(BetweenTotalAndActive(st.tasks[a])) - st.returned);
            || (change == 1 && next.active == (st.active + 1) % U64)
            || (change == -1 && next.active == (st.active + U64 - 1) % U64)
            || (change == 0 && next.active == st.active)
  {
    hide Expired, Streams, Refers;
  }

  lemma ActiveStep(st: State, config: Config, a: nat, step: Step)
    requires Enabled(st, config, a, step) && Framed(st, Apply(st, config, a, step), a)
    requires st.active == (st.total - Count(st.tasks, BetweenTotalAndActive) - st.returned) % U64
    ensures var next := Apply(st, config, a, step);
            next.active == (next.total - Count(next.tasks, BetweenTotalAndActive) - next.returned) % U64
  {
    hide Count, Enabled, Apply;
    var next := Apply(st, config, a, step);
    ActiveChange(st, config, a, step);
    CountUpdate(st.tasks, a, next.tasks[a], BetweenTotalAndActive);
    WrapCounts(st.total - Count(st.tasks, BetweenTotalAndActive) - st.returned);
  }

  lemma OpeningStep(st: State, config: Config, a: nat, step: Step)
    requires Enabled(st, config, a, step) && Framed(st, Apply(st, config, a, step), a)
    requires st.total == st.issued + st.failed + Count(st.tasks, Opening)
    ensures var next := Apply(st, config, a, step);
            next.total == next.issued + next.failed + Count(next.tasks, Opening)
  {
    hide Count, Enabled, Apply;
    OpeningChange(st, config, a, step);
    CountUpdate(st.tasks, a, Apply(st, config, a, step).tasks[a], Opening);
  }

  /** What one task's hand and program counter add to the account of held streams. */
  function HandAccount(st: State, a: nat): int
    requires a < |st.tasks| && a < |st.hands|
  {
    |st.hands[a]| + One(Returning(st.tasks[a])) + st.returned + st.discarded - st.issued - st.reused
  }

  ghost predicate HandKept(st: State, next: State, a: nat) {
    && a < |st.tasks| && a < |st.hands| && a < |next.tasks| && a < |next.hands|
    && next.hands == st.hands[a := next.hands[a]]
    && HandAccount(next, a) == HandAccount(st, a)
  }

  /** The steps that put a stream into a hand. */
  lemma HandFills(st: State, config: Config, a: nat, step: Step)
    requires Enabled(st, config, a, step) && Placed(st)
    requires step.CountReuse? || step.Connected?
    ensures HandKept(st, Apply(st, config, a, step), a)
  {
    hide Expired, Streams, Refers;
    var pc := st.tasks[a];
    if step.CountReuse? {
      assert pc.stream in Content(st, InTask(a));
      assert pc.stream !in Content(st, InHand(a));
    } else {
      assert st.issued !in Content(st, InHand(a));
    }
  }

  lemma HandElse(st: State, config: Config, a: nat, step: Step)
    requires Enabled(st, config, a, step) && !step.HandOver? && !step.CountReuse? && !step.Connected?
    ensures HandKept(st, Apply(st, config, a, step), a)
  {
    hide Expired, Streams, Refers;
  }

  lemma HandOverHolds(st: State, config: Config, a: nat, step: Step)
    requires Enabled(st, config, a, step) && Placed(st) && step.HandOver?
    ensures var next := Apply(st, config, a, step);
            && Held(next.hands) == Held(st.hands) && next.tasks == st.tasks
            && next == st.(hands := next.hands)
  {
    hide Held, Expired, Streams, Refers;
    var given := st.hands[a := st.hands[a] - {step.stream}];
    HeldUpdate(st.hands, a, st.hands[a] - {step.stream});
    HeldUpdate(given, step.other, given[step.other] + {step.stream});
    assert step.stream in Content(st, InHand(a));
    assert step.other != a ==> step.stream !in Content(st, InHand(step.other));
  }

  lemma HeldStep(st: State, config: Config, a: nat, step: Step)
    requires Enabled(st, config, a, step) && Framed(st, Apply(st, config, a, step), a) && Placed(st)
    requires Held(st.hands) + Count(st.tasks, Returning) + st.returned + st.discarded == st.issued + st.reused
    ensures var next := Apply(st, config, a, step);
            Held(next.hands) + Count(next.tasks, Returning) + next.returned + next.discarded
            == next.issued + next.reused
  {
    hide Held, Count, Enabled, Placed, Apply;
    var next := Apply(st, config, a, step);
    CountUpdate(st.tasks, a, next.tasks[a], Returning);
    if step.HandOver? {
      HandOverHolds(st, config, a, step);
    } else {
      if step.CountReuse? || step.Connected? {
        HandFills(st, config, a, step);
      } else {
        HandElse(st, config, a, step);
      }
      HeldUpdate(st.hands, a, next.hands[a]);
    }
  }

  lemma WrapCounts(v: int)
    ensures (v % U64 + 1) % U64 == (v + 1) % U64
    ensures (v % U64 + U64 - 1) % U64 == (v - 1) % U64
  {
  }

  lemma CountedStep(st: State, config: Config, a: nat, step: Step)
    requires Counted(st) && Placed(st) && Enabled(st, config, a, step) && Framed(st, Apply(st, config, a, step), a)
    ensures Counted(Apply(st, config, a, step))
  {
    hide Enabled, Apply, Count, Held, Placed;
    OpeningStep(st, config, a, step);
    HeldStep(st, config, a, step);
    HitsStep(st, config, a, step);
    MissesStep(st, config, a, step);
    ActiveStep(st, config, a, step);
  }

  // ----- every run

  ghost predicate Safe(st: State, config: Config) {
    Linked(st) && Placed(st) && Ordered(st) && Bounded(st, config) && Counted(st)
  }

  lemma InitSafe(tasks: nat, config: Config)
    ensures Safe(Init(tasks), config)
  {
    var st := Init(tasks);
    forall p ensures Content(st, p) == {} {
    }
    NoneAt(tasks, BetweenHitAndReuse);
    NoneAt(tasks, BetweenMissAndTotal);
    NoneAt(tasks, BetweenTotalAndActive);
    NoneAt(tasks, Opening);
    NoneAt(tasks, Returning);
    NoneHeld(st.hands);
  }

  lemma {:induction false} NoneHeld(hands: seq<set<nat>>)
    requires forall a :: 0 <= a < |hands| ==> hands[a] == {}
    ensures Held(hands) == 0
    decreases |hands|
  {
    if hands != [] {
      NoneHeld(hands[..|hands| - 1]);
    }
  }

  lemma {:induction false} NoneAt(tasks: nat, at: Pc -> bool)
    requires !at(Idle)
    ensures Count(seq(tasks, _ => Idle), at) == 0
  {
    if tasks > 0 {
      assert seq(tasks, _ => Idle)[..tasks - 1] == seq(tasks - 1, _ => Idle);
      NoneAt(tasks - 1, at);
    }
  }

  lemma StepFramed(st: State, config: Config, a: nat, step: Step)
    requires Referenced(st) && Enabled(st, config, a, step)
    ensures Framed(st, Apply(st, config, a, step), a)
  {
    hide Enabled, Apply, Framed, Referenced;
    if step.GetLookup? || step.GetLock? || step.PopExpired? || step.PopFresh? || step.PopEmpty? {
      GetFramed(st, config, a, step);
    } else if step.Tick? || step.FreeQueue? || step.HandOver? || step.Discard? {
      OtherFramed(st, config, a, step);
    } else if step.ClearBegin? || step.ClearEnter? || step.ClearLock? {
      ClearFramed(st, config, a, step);
    } else if step.ClearQueue? || step.ClearMap? {
      ClearEndsFramed(st, config, a, step);
    } else if step.ReturnDiscard? || step.ReturnEnter? || step.ReturnLock? || step.ReturnFull? || step.ReturnStore? {
      ReturnFramed(st, config, a, step);
    } else if step.SweepEnter? || step.SweepLock? || step.SweepDrop? {
      SweepFramed(st, config, a, step);
    } else if step.SweepKeep? || step.SweepDone? || step.RemoveEntry? {
      SweepOnFramed(st, config, a, step);
    } else {
      CountFramed(st, config, a, step);
    }
  }

  lemma SafeStep(st: State, config: Config, a: nat, step: Step)
    requires Safe(st, config) && Enabled(st, config, a, step)
    ensures Safe(Apply(st, config, a, step), config)
  {
    hide Enabled, Apply, Referenced, Locked, Placed, Ordered, Bounded, Counted, Framed;
    var next := Apply(st, config, a, step);
    StepFramed(st, config, a, step);
    FramedReferenced(st, next, a);
    FramedLocked(st, next, a);
    PlacedStep(st, config, a, step);
    EveryQueueSteps(st, config, a, step);
    OrderedStep(st, next, config);
    BoundedStep(st, next, config);
    CountedStep(st, config, a, step);
  }

  /** A schedule: which task takes which step. */
  datatype Turn = Turn(a: nat, step: Step)

  /** The state after a schedule, if every step of it can be taken. */
  function RunFrom(st: State, config: Config, turns: seq<Turn>): Option<State>
    decreases |turns|
  {
    if turns == [] then Some(st)
    else if Enabled(st, config, turns[0].a, turns[0].step) then
      RunFrom(Apply(st, config, turns[0].a, turns[0].step), config, turns[1..])
    else None
  }

  lemma {:induction false} RunIsSafe(st: State, config: Config, turns: seq<Turn>)
    requires Safe(st, config)
    ensures RunFrom(st, config, turns).Some? ==> Safe(RunFrom(st, config, turns).value, config)
    decreases |turns|
  {
    hide Enabled, Apply, Safe;
    if turns != [] && Enabled(st, config, turns[0].a, turns[0].step) {
      SafeStep(st, config, turns[0].a, turns[0].step);
      RunIsSafe(Apply(st, config, turns[0].a, turns[0].step), config, turns[1..]);
    }
  }

  /** Every interleaving of any number of tasks, from the empty pool. */
  lemma EveryRunIsSafe(tasks: nat, config: Config, turns: seq<Turn>)
    ensures RunFrom(Init(tasks), config, turns).Some?
        ==> Safe(RunFrom(Init(tasks), config, turns).value, config)
  {
    hide Safe;
    InitSafe(tasks, config);
    RunIsSafe(Init(tasks), config, turns);
  }

  // ----- what the statistics say

  /** No task is between two counter updates. */
  ghost predicate Settled(st: State) {
    forall a :: 0 <= a < |st.tasks|
      ==> (&& !BetweenHitAndReuse(st.tasks[a]) && !BetweenMissAndTotal(st.tasks[a])
           && !Opening(st.tasks[a]) && !Returning(st.tasks[a]))
  }

  lemma {:induction false} CountNone(tasks: seq<Pc>, at: Pc -> bool)
    requires forall a :: 0 <= a < |tasks| ==> !at(tasks[a])
    ensures Count(tasks, at) == 0
    decreases |tasks|
  {
    if tasks != [] {
      CountNone(tasks[..|tasks| - 1], at);
    }
  }

  /** Hits are the reuses, misses the new connections, and what callers hold follows from the counters. */
  lemma SettledCounts(st: State, config: Config)
    requires Safe(st, config) && Settled(st)
    ensures st.hits == st.reused && st.misses == st.total == st.issued + st.failed
    ensures st.active == (st.total - st.returned) % U64
    ensures Held(st.hands) + st.returned + st.discarded == st.issued + st.reused
  {
    hide Count, Held, Linked, Placed, Ordered, Bounded;
    CountNone(st.tasks, BetweenHitAndReuse);
    CountNone(st.tasks, BetweenMissAndTotal);
    CountNone(st.tasks, BetweenTotalAndActive);
    CountNone(st.tasks, Opening);
    CountNone(st.tasks, Returning);
  }

  /**
   `active` is the number of streams held exactly when reuses, which it does not count, are as many
   as the failed attempts and dropped streams, which it counts and nobody gives back.
   */
  lemma ActiveIsHeldIff(st: State, config: Config)
    requires Safe(st, config) && Settled(st)
    ensures st.active == Held(st.hands) % U64 <==> (st.failed + st.discarded - st.reused) % U64 == 0
    ensures st.total + st.discarded < U64 && st.reused < U64 && Held(st.hands) < U64
        ==> (st.active == Held(st.hands) <==> st.reused == st.failed + st.discarded)
  {
    hide Safe, Settled, Held;
    SettledCounts(st, config);
    SameModulo(st.total - st.returned, Held(st.hands));
  }

  lemma SameModulo(x: int, y: int)
    ensures x % U64 == y % U64 <==> (x - y) % U64 == 0
  {
    var k, l := x / U64, y / U64;
    assert x - y == U64 * (k - l) + (x % U64 - y % U64);
  }

  /** What safety says of one stream: opened means in exactly one place, so never with two callers. */
  lemma StreamInOnePlace(st: State, config: Config, s: nat)
    requires Safe(st, config)
    ensures s < st.issued <==> exists p :: s in Content(st, p)
    ensures forall p1, p2 :: s in Content(st, p1) && s in Content(st, p2) ==> p1 == p2
    ensures forall a, b :: 0 <= a < |st.hands| && 0 <= b < |st.hands| && s in st.hands[a] && s in st.hands[b] ==> a == b
  {
    assert s < st.issued ==> Somewhere(st, s);
    forall a, b | 0 <= a < |st.hands| && 0 <= b < |st.hands| && s in st.hands[a] && s in st.hands[b] ensures a == b {
      assert s in Content(st, InHand(a)) && s in Content(st, InHand(b));
    }
  }
}
