/**
 The loops that `get_connection` and the cleanup run under a queue's lock, as runs of single steps.
 However other tasks step in between, such a loop does what the queue's methods do in place; and
 taken without interruption it does reach its end.
 */
module PoolCalls {
  import opened Bytes
  import opened HostQueue
  import opened Pool
  import opened PoolLimits

  /** Task `a` stands at `pc`, inside queue `q`, which holds `conns`. */
  predicate Inside(st: State, a: nat, pc: Pc, q: QueueId, conns: seq<Conn>) {
    && a < |st.tasks| == |st.hands| && st.tasks[a] == pc && Holds(pc) == Some(q)
    && q < |st.queues| && st.queues[q].conns == conns
  }

  // ----- however other tasks step in between

  /** A step that is none of task `a`'s own under the lock. */
  predicate Aside(a: nat, b: nat, step: Step) {
    b != a || step.Tick? || step.FreeQueue? || step.HandOver? || step.Discard?
  }

  /** Only the task inside a queue changes it, until the last reference to it is dropped. */
  lemma OnlyInside(st: State, config: Config, b: nat, step: Step, q: QueueId)
    requires Enabled(st, config, b, step) && q < |st.queues|
    ensures var next := Apply(st, config, b, step);
            && q < |next.queues|
            && (next.queues[q].conns == st.queues[q].conns
                || Holds(st.tasks[b]) == Some(q) || step == FreeQueue(q))
  {
    hide Expired, Streams, Refers;
  }

  /** A task's own place changes only by its own steps under way. */
  lemma PlaceKept(st: State, config: Config, b: nat, step: Step, a: nat)
    requires Referenced(st) && Enabled(st, config, b, step) && a < |st.tasks| && Aside(a, b, step)
    ensures var next := Apply(st, config, b, step);
            a < |next.tasks| && next.tasks[a] == st.tasks[a] && |st.queues| <= |next.queues|
  {
    if b == a {
      AsidePlace(st, config, b, step);
    } else {
      hide Enabled, Apply;
      StepFramed(st, config, b, step);
    }
  }

  lemma AsidePlace(st: State, config: Config, b: nat, step: Step)
    requires Enabled(st, config, b, step)
    requires step.Tick? || step.FreeQueue? || step.HandOver? || step.Discard?
    ensures var next := Apply(st, config, b, step);
            next.tasks == st.tasks && |st.queues| <= |next.queues| && forall q | 0 <= q < |st.queues| ::
              next.queues[q].conns == st.queues[q].conns || step == FreeQueue(q)
  {
    hide Expired, Streams, Refers;
  }

  lemma NotFreed(st: State, config: Config, b: nat, a: nat, q: QueueId)
    requires a < |st.tasks| && Holds(st.tasks[a]) == Some(q)
    ensures !Enabled(st, config, b, FreeQueue(q))
  {
    assert Refers(st.tasks[a]) == Some(q);
  }

  /** A queue is safe in the hands of the task that holds its lock. */
  lemma HeldQueueKept(st: State, config: Config, b: nat, step: Step, a: nat, q: QueueId)
    requires Linked(st) && Enabled(st, config, b, step) && a < |st.tasks|
    requires Holds(st.tasks[a]) == Some(q) && Aside(a, b, step)
    ensures var next := Apply(st, config, b, step);
            && a < |next.tasks| && next.tasks[a] == st.tasks[a]
            && q < |st.queues| && q < |next.queues| && next.queues[q].conns == st.queues[q].conns
  {
    hide Enabled, Apply;
    PlaceKept(st, config, b, step, a);
    NotFreed(st, config, b, a, q);
    if b == a {
      AsidePlace(st, config, b, step);
    } else {
      assert st.queues[q].holder == Some(a);
      OnlyInside(st, config, b, step, q);
      TaskExists(st, config, b, step);
    }
  }

  lemma TaskExists(st: State, config: Config, b: nat, step: Step)
    requires Enabled(st, config, b, step)
    ensures b < |st.tasks|
  {
  }

  /** Closed streams stay closed, and time goes on. */
  lemma ClosedStays(st: State, config: Config, b: nat, step: Step)
    requires Enabled(st, config, b, step)
    ensures var next := Apply(st, config, b, step);
            st.closed <= next.closed && st.clock <= next.clock && |next.tasks| == |st.tasks|
  {
    hide Expired, Refers;
  }

  lemma LinkedStep(st: State, config: Config, b: nat, step: Step)
    requires Linked(st) && Enabled(st, config, b, step)
    ensures Linked(Apply(st, config, b, step))
  {
    hide Enabled, Apply, Referenced, Locked, Framed;
    var next := Apply(st, config, b, step);
    StepFramed(st, config, b, step);
    FramedReferenced(st, next, b);
    FramedLocked(st, next, b);
  }

  /** The first `n` connections have expired and been closed. */
  ghost predicate Dropped(st: State, conns: seq<Conn>, n: nat, config: Config) {
    && n <= |conns|
    && (forall k :: 0 <= k < n ==> Expired(conns[k], st.clock, config))
    && Streams(conns[..n]) <= st.closed
  }

  /**
   Where a get stands that got the lock of `q` at time `since`, with `conns` queued: it has dropped
   expired connections from the front, or found the first one that had not expired, or dropped all.
   */
  ghost predicate GetSoFar(st: State, a: nat, q: QueueId, conns: seq<Conn>, since: Time, config: Config) {
    && a < |st.tasks| && q < |st.queues| && since <= st.clock
    && var now := st.queues[q].conns;
       match st.tasks[a]
       case GetLocked(x) =>
         && x == q && |now| <= |conns|
         && var n := |conns| - |now|; now == conns[n..] && Dropped(st, conns, n, config)
       case HitFound(x, stream) => x == q && HitSoFar(st, now, conns, stream, since, config)
       case HitCounted(x, stream) => x == q && HitSoFar(st, now, conns, stream, since, config)
       case Missed => Dropped(st, conns, |conns|, config)
       case _ => false
  }

  ghost predicate HitSoFar(st: State, now: seq<Conn>, conns: seq<Conn>, stream: nat, since: Time, config: Config) {
    && |now| < |conns|
    && var n := |conns| - |now| - 1;
       && now == conns[n + 1..] && stream == conns[n].stream
       && Dropped(st, conns, n, config) && !Expired(conns[n], since, config)
  }

  lemma DroppedStays(st: State, next: State, conns: seq<Conn>, n: nat, config: Config)
    requires Dropped(st, conns, n, config) && st.closed <= next.closed && st.clock <= next.clock
    ensures Dropped(next, conns, n, config)
  {
    forall k | 0 <= k < n ensures Expired(conns[k], next.clock, config) {
      ExpiredStays(conns[k], st.clock, next.clock, config);
    }
  }

  lemma GetAside(st: State, next: State, a: nat, q: QueueId, conns: seq<Conn>, since: Time, config: Config)
    requires GetSoFar(st, a, q, conns, since, config)
    requires st.closed <= next.closed && st.clock <= next.clock
    requires a < |next.tasks| && next.tasks[a] == st.tasks[a] && q < |next.queues|
    requires st.tasks[a].Missed? || next.queues[q].conns == st.queues[q].conns
    ensures GetSoFar(next, a, q, conns, since, config)
  {
    hide Dropped, Expired;
    var now := st.queues[q].conns;
    match st.tasks[a] {
      case GetLocked(_) => DroppedStays(st, next, conns, |conns| - |now|, config);
      case HitFound(_, _) => DroppedStays(st, next, conns, |conns| - |now| - 1, config);
      case HitCounted(_, _) => DroppedStays(st, next, conns, |conns| - |now| - 1, config);
      case Missed => DroppedStays(st, next, conns, |conns|, config);
      case _ =>
    }
  }

  lemma DroppedOneMore(st: State, next: State, conns: seq<Conn>, n: nat, config: Config)
    requires Dropped(st, conns, n, config) && n < |conns| && Expired(conns[n], st.clock, config)
    requires next.clock == st.clock && next.closed == st.closed + {conns[n].stream}
    ensures Dropped(next, conns, n + 1, config)
  {
    assert conns[..n + 1] == conns[..n] + [conns[n]];
    StreamsPush(conns[..n], conns[n]);
  }

  /** The get's own steps under the lock. */
  lemma GetOwn(st: State, config: Config, a: nat, step: Step, q: QueueId, conns: seq<Conn>, since: Time)
    requires GetSoFar(st, a, q, conns, since, config) && Enabled(st, config, a, step)
    requires !Aside(a, a, step) && !step.CountReuse? && !step.CountMiss?
    ensures GetSoFar(Apply(st, config, a, step), a, q, conns, since, config)
  {
    hide Dropped, Expired, Streams, Refers;
    var now, next := st.queues[q].conns, Apply(st, config, a, step);
    var n := |conns| - |now|;
    match step {
      case PopExpired =>
        assert now[0] == conns[n] && now[1..] == conns[n + 1..];
        DroppedOneMore(st, next, conns, n, config);
      case PopFresh =>
        assert now[0] == conns[n] && now[1..] == conns[n + 1..];
        NotYetExpired(conns[n], since, st.clock, config);
        DroppedStays(st, next, conns, n, config);
      case PopEmpty => DroppedStays(st, next, conns, n, config);
      case CountHit => DroppedStays(st, next, conns, n - 1, config);
      case _ =>
    }
  }

  lemma NotYetExpired(c: Conn, before: Time, now: Time, config: Config)
    requires before <= now && !Expired(c, now, config)
    ensures !Expired(c, before, config)
  {
  }

  lemma GetStep(st: State, config: Config, b: nat, step: Step, a: nat, q: QueueId, conns: seq<Conn>, since: Time)
    requires Linked(st) && GetSoFar(st, a, q, conns, since, config) && Enabled(st, config, b, step)
    requires b == a ==> !step.CountReuse? && !step.CountMiss?
    ensures GetSoFar(Apply(st, config, b, step), a, q, conns, since, config)
  {
    hide Apply, Dropped, HitSoFar, Expired;
    if Aside(a, b, step) {
      ClosedStays(st, config, b, step);
      if st.tasks[a].Missed? {
        PlaceKept(st, config, b, step, a);
      } else {
        HeldQueueKept(st, config, b, step, a, q);
      }
      GetAside(st, Apply(st, config, b, step), a, q, conns, since, config);
    } else {
      GetOwn(st, config, a, step, q, conns, since);
    }
  }

  /** On every run, for as long as the get has not gone on to count its hit or its miss. */
  lemma {:induction false} GetOnAnyRun(st: State, config: Config, turns: seq<Turn>, a: nat, q: QueueId,
                                       conns: seq<Conn>, since: Time)
    requires Linked(st) && GetSoFar(st, a, q, conns, since, config)
    requires RunFrom(st, config, turns).Some?
    requires forall k :: 0 <= k < |turns| && turns[k].a == a ==> !turns[k].step.CountReuse? && !turns[k].step.CountMiss?
    ensures GetSoFar(RunFrom(st, config, turns).value, a, q, conns, since, config)
    decreases |turns|
  {
    hide Enabled, Apply, GetSoFar, Linked;
    if turns != [] {
      var t := turns[0];
      GetStep(st, config, t.a, t.step, a, q, conns, since);
      LinkedStep(st, config, t.a, t.step);
      GetOnAnyRun(Apply(st, config, t.a, t.step), config, turns[1..], a, q, conns, since);
    }
  }

  /** A get begins like that when it gets the lock. */
  lemma GetBegins(st: State, a: nat, q: QueueId, conns: seq<Conn>, config: Config)
    requires Inside(st, a, GetLocked(q), q, conns)
    ensures GetSoFar(st, a, q, conns, st.clock, config)
  {
    assert Streams(conns[..0]) == {};
  }

  /**
   With the clock standing still during the call, a get that has decided reuses a connection exactly
   when an unexpired one was queued, namely the first such, and has closed those before it.
   */
  lemma GetDecides(st: State, a: nat, q: QueueId, conns: seq<Conn>, config: Config)
    requires GetSoFar(st, a, q, conns, st.clock, config)
    requires st.tasks[a].HitFound? || st.tasks[a].HitCounted? || st.tasks[a].Missed?
    ensures !st.tasks[a].Missed? <==> exists k :: 0 <= k < |conns| && !Expired(conns[k], st.clock, config)
    ensures !st.tasks[a].Missed?
        ==> exists n :: (&& 0 <= n < |conns| && st.tasks[a].stream == conns[n].stream
                         && !Expired(conns[n], st.clock, config)
                         && (forall k :: 0 <= k < n ==> Expired(conns[k], st.clock, config))
                         && Streams(conns[..n]) <= st.closed && st.queues[q].conns == conns[n + 1..])
  {
    hide Streams;
    if !st.tasks[a].Missed? {
      var n := |conns| - |st.queues[q].conns| - 1;
      assert st.tasks[a].stream == conns[n].stream && !Expired(conns[n], st.clock, config);
    }
  }

  /** The same, from the state in which the get got the lock to any state in which it has decided. */
  lemma GetUnderLock(st: State, config: Config, turns: seq<Turn>, a: nat, q: QueueId, conns: seq<Conn>)
    requires Safe(st, config) && Inside(st, a, GetLocked(q), q, conns)
    requires RunFrom(st, config, turns).Some? && RunFrom(st, config, turns).value.clock == st.clock
    requires forall k :: 0 <= k < |turns| && turns[k].a == a ==> !turns[k].step.CountReuse? && !turns[k].step.CountMiss?
    ensures var end := RunFrom(st, config, turns).value;
            && a < |end.tasks|
            && (end.tasks[a].HitFound?
                ==> exists n :: (&& 0 <= n < |conns| && end.tasks[a].stream == conns[n].stream
                                 && !Expired(conns[n], st.clock, config)
                                 && (forall k :: 0 <= k < n ==> Expired(conns[k], st.clock, config))))
            && (end.tasks[a].Missed? ==> forall k :: 0 <= k < |conns| ==> Expired(conns[k], st.clock, config))
  {
    hide RunFrom, Linked, Placed, Ordered, Bounded, Counted, Expired;
    GetBegins(st, a, q, conns, config);
    GetOnAnyRun(st, config, turns, a, q, conns, st.clock);
    var end := RunFrom(st, config, turns).value;
    if end.tasks[a].HitFound? || end.tasks[a].Missed? {
      GetDecides(end, a, q, conns, config);
    }
  }

  /** Where a sweep stands that found `conns` queued, with the clock standing still. */
  ghost predicate SweepSoFar(st: State, a: nat, addr: Addr, q: QueueId, conns: seq<Conn>, since: Time, config: Config) {
    && a < |st.tasks| && q < |st.queues| && st.clock == since
    && st.tasks[a].SweepLocked? && st.tasks[a].addr == addr && st.tasks[a].q == q
    && var now, next := st.queues[q].conns, st.tasks[a].next;
       && next <= |now| && |now| - next <= |conns|
       && SweptTo(conns, |conns| - (|now| - next), now, next, since, config)
  }

  /** Of the first `k` connections the unexpired are left, in front of all the others. */
  ghost predicate SweptTo(conns: seq<Conn>, k: nat, now: seq<Conn>, next: nat, since: Time, config: Config)
    requires k <= |conns|
  {
    var kept := Retained(conns[..k], Still(since), config);
    next == |kept| && now == kept + conns[k..]
  }

  lemma SweptOne(conns: seq<Conn>, k: nat, now: seq<Conn>, next: nat, since: Time, config: Config)
    requires k < |conns| && SweptTo(conns, k, now, next, since, config)
    ensures next < |now| && now[next] == conns[k]
    ensures Expired(conns[k], since, config)
        ==> SweptTo(conns, k + 1, now[..next] + now[next + 1..], next, since, config)
    ensures !Expired(conns[k], since, config) ==> SweptTo(conns, k + 1, now, next + 1, since, config)
  {
    assert conns[..k + 1][..k] == conns[..k];
    Behind(Retained(conns[..k], Still(since), config), conns, k);
  }

  lemma SweepOwn(st: State, config: Config, a: nat, step: Step, addr: Addr, q: QueueId, conns: seq<Conn>)
    requires SweepSoFar(st, a, addr, q, conns, st.clock, config) && Enabled(st, config, a, step)
    requires step.SweepDrop? || step.SweepKeep?
    ensures SweepSoFar(Apply(st, config, a, step), a, addr, q, conns, st.clock, config)
  {
    hide Expired, Streams, Refers, SweptTo;
    var now, next := st.queues[q].conns, st.tasks[a].next;
    SweptOne(conns, |conns| - (|now| - next), now, next, st.clock, config);
  }

  lemma SweepStep(st: State, config: Config, b: nat, step: Step, a: nat, addr: Addr, q: QueueId, conns: seq<Conn>)
    requires Linked(st) && SweepSoFar(st, a, addr, q, conns, st.clock, config) && Enabled(st, config, b, step)
    requires b == a ==> !step.SweepDone?
    requires Apply(st, config, b, step).clock == st.clock
    ensures SweepSoFar(Apply(st, config, b, step), a, addr, q, conns, st.clock, config)
  {
    hide Apply, SweptTo;
    if Aside(a, b, step) {
      HeldQueueKept(st, config, b, step, a, q);
    } else {
      SweepOwn(st, config, a, step, addr, q, conns);
    }
  }

  lemma {:induction false} ClockOnRun(st: State, config: Config, turns: seq<Turn>)
    ensures RunFrom(st, config, turns).Some? ==> st.clock <= RunFrom(st, config, turns).value.clock
    decreases |turns|
  {
    hide Enabled, Apply;
    if turns != [] && Enabled(st, config, turns[0].a, turns[0].step) {
      ClosedStays(st, config, turns[0].a, turns[0].step);
      ClockOnRun(Apply(st, config, turns[0].a, turns[0].step), config, turns[1..]);
    }
  }

  /** On every run on which the clock stands still, for as long as the sweep has not let the lock go. */
  lemma {:induction false} SweepOnAnyRun(st: State, config: Config, turns: seq<Turn>, a: nat, addr: Addr, q: QueueId,
                                         conns: seq<Conn>)
    requires Linked(st) && SweepSoFar(st, a, addr, q, conns, st.clock, config)
    requires RunFrom(st, config, turns).Some? && RunFrom(st, config, turns).value.clock == st.clock
    requires forall k :: 0 <= k < |turns| && turns[k].a == a ==> !turns[k].step.SweepDone?
    ensures SweepSoFar(RunFrom(st, config, turns).value, a, addr, q, conns, st.clock, config)
    decreases |turns|
  {
    hide Enabled, Apply, SweepSoFar, Linked;
    if turns != [] {
      var t := turns[0];
      var next := Apply(st, config, t.a, t.step);
      ClosedStays(st, config, t.a, t.step);
      ClockOnRun(next, config, turns[1..]);
      SweepStep(st, config, t.a, t.step, a, addr, q, conns);
      LinkedStep(st, config, t.a, t.step);
      SweepOnAnyRun(next, config, turns[1..], a, addr, q, conns);
    }
  }

  /** A sweep begins like that, and where it may let the lock go it has kept exactly the unexpired. */
  lemma SweepBegins(st: State, a: nat, addr: Addr, q: QueueId, conns: seq<Conn>, config: Config)
    requires Inside(st, a, SweepLocked(addr, q, 0), q, conns)
    ensures SweepSoFar(st, a, addr, q, conns, st.clock, config)
  {
    assert conns[..0] == [] && [] + conns[0..] == conns;
  }

  lemma SweepFinishes(st: State, config: Config, a: nat, addr: Addr, q: QueueId, conns: seq<Conn>)
    requires SweepSoFar(st, a, addr, q, conns, st.clock, config) && Enabled(st, config, a, SweepDone)
    ensures st.queues[q].conns == Retained(conns, Still(st.clock), config)
    ensures var next := Apply(st, config, a, SweepDone);
            && next.queues[q].conns == st.queues[q].conns
            && next.tasks[a] == if st.queues[q].conns == [] then Removing(addr) else Idle
  {
    hide Apply, Retained;
    var now, next := st.queues[q].conns, st.tasks[a].next;
    SweepAtEnd(st, config, a);
    var k := |conns| - (|now| - next);
    assert k == |conns| && conns[..k] == conns && conns[k..] == [];
    assert now == Retained(conns, Still(st.clock), config) + [];
    SweepEnds(st, config, a, addr, q);
  }

  lemma SweepAtEnd(st: State, config: Config, a: nat)
    requires Enabled(st, config, a, SweepDone)
    ensures a < |st.tasks| && st.tasks[a].SweepLocked? && st.tasks[a].q < |st.queues|
    ensures st.tasks[a].next >= |st.queues[st.tasks[a].q].conns|
  {
  }

  /** From the state in which the sweep got the lock to any state in which it may let it go. */
  lemma SweepUnderLock(st: State, config: Config, turns: seq<Turn>, a: nat, addr: Addr, q: QueueId, conns: seq<Conn>)
    requires Safe(st, config) && Inside(st, a, SweepLocked(addr, q, 0), q, conns)
    requires RunFrom(st, config, turns).Some? && RunFrom(st, config, turns).value.clock == st.clock
    requires forall k :: 0 <= k < |turns| && turns[k].a == a ==> !turns[k].step.SweepDone?
    ensures var end := RunFrom(st, config, turns).value;
            Enabled(end, config, a, SweepDone)
            ==> q < |end.queues| && end.queues[q].conns == Retained(conns, Still(st.clock), config)
  {
    hide RunFrom, Linked, Placed, Ordered, Bounded, Counted, Enabled;
    SweepBegins(st, a, addr, q, conns, config);
    SweepOnAnyRun(st, config, turns, a, addr, q, conns);
    var end := RunFrom(st, config, turns).value;
    if Enabled(end, config, a, SweepDone) {
      SweepFinishes(end, config, a, addr, q, conns);
    }
  }

  // ----- without interruption

  /** One more step of task `a` on a run that led from `st` to `mid`. */
  lemma Extend(st: State, mid: State, config: Config, turns: seq<Turn>, a: nat, step: Step)
    returns (more: seq<Turn>, next: State)
    requires RunFrom(st, config, turns) == Some(mid) && Enabled(mid, config, a, step)
    ensures next == Apply(mid, config, a, step) && more == turns + [Turn(a, step)]
    ensures RunFrom(st, config, more) == Some(next)
  {
    OneMore(st, mid, config, turns, a, step);
    more, next := turns + [Turn(a, step)], Apply(mid, config, a, step);
  }

  /** The expired connections at the front go one after another, each of them closed. */
  lemma PopsExpired(st: State, config: Config, a: nat, q: QueueId, conns: seq<Conn>, n: nat)
    returns (turns: seq<Turn>, after: State)
    requires Inside(st, a, GetLocked(q), q, conns) && n <= |conns|
    requires forall k :: 0 <= k < n ==> Expired(conns[k], st.clock, config)
    ensures RunFrom(st, config, turns) == Some(after)
    ensures Inside(after, a, GetLocked(q), q, conns[n..]) && after.clock == st.clock
    ensures after.closed == st.closed + Streams(conns[..n])
  {
    hide RunFrom;
    turns, after := [], st;
    NoTurns(st, config);
    for k := 0 to n
      invariant RunFrom(st, config, turns) == Some(after)
      invariant Inside(after, a, GetLocked(q), q, conns[k..]) && after.clock == st.clock
      invariant after.closed == st.closed + Streams(conns[..k])
    {
      StreamsPush(conns[..k], conns[k]);
      assert conns[..k + 1] == conns[..k] + [conns[k]];
      turns, after := Extend(st, after, config, turns, a, PopExpired);
    }
  }

  lemma NoTurns(st: State, config: Config)
    ensures RunFrom(st, config, []) == Some(st)
  {
  }

  /** The popping loop of a get, step by step and in place: the same connection, the same queue. */
  method GetStepsAreTakeFresh(queue: Queue, st: State, a: nat, q: QueueId)
    returns (hit: Option<Conn>, ghost dropped: nat, ghost turns: seq<Turn>, ghost after: State)
    requires Inside(st, a, GetLocked(q), q, queue.conns)
    modifies queue
    ensures RunFrom(st, queue.config, turns) == Some(after)
    ensures a < |after.tasks| && q < |after.queues| && after.queues[q].conns == queue.conns
    ensures after.tasks[a] == match hit case Some(c) => HitFound(q, c.stream) case None => Missed
    ensures dropped <= |old(queue.conns)| && (hit.Some? <==> dropped < |old(queue.conns)|)
    ensures after.closed == st.closed + Streams(old(queue.conns)[..dropped])
    ensures queue.conns == if hit.Some? then old(queue.conns)[dropped + 1..] else []
  {
    hide RunFrom;
    ghost var conns, config := queue.conns, queue.config;
    hit, dropped := queue.TakeFresh(Still(st.clock));
    turns, after := PopsExpired(st, config, a, q, conns, dropped);
    turns, after := Extend(st, after, config, turns, a, if dropped < |conns| then PopFresh else PopEmpty);
  }

  /** The end of a return: full or stored, the counter counted down either way. */
  method ReturnStepIsOffer(queue: Queue, st: State, a: nat, q: QueueId, stream: nat)
    returns (kept: bool, ghost after: State)
    requires Inside(st, a, ReturnLocked(q, stream), q, queue.conns)
    modifies queue
    ensures RunFrom(st, queue.config, [Turn(a, if kept then ReturnStore else ReturnFull)]) == Some(after)
    ensures a < |after.tasks| && after.tasks[a] == Idle
    ensures q < |after.queues| && after.queues[q].conns == queue.conns
    ensures after.closed == st.closed + if kept then {} else {stream}
  {
    kept := queue.Offer(stream, st.clock);
    NoTurns(st, queue.config);
    ghost var turns;
    turns, after := Extend(st, st, queue.config, [], a, if kept then ReturnStore else ReturnFull);
    assert [] + [Turn(a, if kept then ReturnStore else ReturnFull)] == turns;
  }

  /** Looking at entry `k` of the queue as it was when the sweep began. */
  lemma SweepEntry(st: State, config: Config, a: nat, addr: Addr, q: QueueId, conns: seq<Conn>, k: nat)
    returns (step: Step)
    requires k < |conns|
    requires var kept := Retained(conns[..k], Still(st.clock), config);
             Inside(st, a, SweepLocked(addr, q, |kept|), q, kept + conns[k..])
    ensures Enabled(st, config, a, step)
    ensures var next, kept := Apply(st, config, a, step), Retained(conns[..k + 1], Still(st.clock), config);
            Inside(next, a, SweepLocked(addr, q, |kept|), q, kept + conns[k + 1..]) && next.clock == st.clock
  {
    var kept := Retained(conns[..k], Still(st.clock), config);
    assert conns[..k + 1][..k] == conns[..k];
    Behind(kept, conns, k);
    step := if Expired(conns[k], st.clock, config) then SweepDrop else SweepKeep;
  }

  lemma Behind(kept: seq<Conn>, conns: seq<Conn>, k: nat)
    requires k < |conns|
    ensures var now := kept + conns[k..];
            && now[|kept|] == conns[k]
            && now[..|kept|] + now[|kept| + 1..] == kept + conns[k + 1..]
            && now == (kept + [conns[k]]) + conns[k + 1..]
  {
  }

  /** A sweep of one queue, step by step and in place; an emptied queue's map entry is next. */
  method SweepStepsAreRetain(queue: Queue, st: State, a: nat, addr: Addr, q: QueueId)
    returns (ghost turns: seq<Turn>, ghost after: State)
    requires Inside(st, a, SweepLocked(addr, q, 0), q, queue.conns)
    modifies queue
    ensures RunFrom(st, queue.config, turns) == Some(after)
    ensures a < |after.tasks| && q < |after.queues| && after.queues[q].conns == queue.conns
    ensures queue.conns == Retained(old(queue.conns), Still(st.clock), queue.config)
    ensures after.tasks[a] == if queue.conns == [] then Removing(addr) else Idle
  {
    ghost var conns := queue.conns;
    queue.Retain(Still(st.clock));
    turns, after := SweepSteps(st, queue.config, a, addr, q, conns);
  }

  lemma SweepSteps(st: State, config: Config, a: nat, addr: Addr, q: QueueId, conns: seq<Conn>)
    returns (turns: seq<Turn>, after: State)
    requires Inside(st, a, SweepLocked(addr, q, 0), q, conns)
    ensures RunFrom(st, config, turns) == Some(after)
    ensures a < |after.tasks| && q < |after.queues|
    ensures after.queues[q].conns == Retained(conns, Still(st.clock), config)
    ensures after.tasks[a] == if after.queues[q].conns == [] then Removing(addr) else Idle
  {
    hide RunFrom, Enabled, Apply;
    turns, after := [], st;
    NoTurns(st, config);
    assert [] + conns[0..] == conns;
    for k := 0 to |conns|
      invariant RunFrom(st, config, turns) == Some(after) && after.clock == st.clock
      invariant var kept := Retained(conns[..k], Still(st.clock), config);
                Inside(after, a, SweepLocked(addr, q, |kept|), q, kept + conns[k..])
    {
      var step := SweepEntry(after, config, a, addr, q, conns, k);
      turns, after := Extend(st, after, config, turns, a, step);
    }
    assert conns[..|conns|] == conns && conns[|conns|..] == [];
    SweepEnds(after, config, a, addr, q);
    turns, after := Extend(st, after, config, turns, a, SweepDone);
  }

  lemma SweepEnds(st: State, config: Config, a: nat, addr: Addr, q: QueueId)
    requires q < |st.queues| && Inside(st, a, SweepLocked(addr, q, |st.queues[q].conns|), q, st.queues[q].conns)
    ensures Enabled(st, config, a, SweepDone)
    ensures var next := Apply(st, config, a, SweepDone);
            && next.queues[q].conns == st.queues[q].conns && |next.queues| == |st.queues|
            && |next.tasks| == |st.tasks|
            && next.tasks[a] == if st.queues[q].conns == [] then Removing(addr) else Idle
  {
  }
}
