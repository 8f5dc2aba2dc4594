/** What clearing the pool does on every run, however other tasks step in between. */
module PoolClears {
  import opened Bytes
  import opened HostQueue
  import opened Pool
  import opened PoolCalls

  /** The clear under way has queue `q` still before it. */
  predicate ToClear(pc: Pc, q: QueueId) {
    match pc
    case Clearing(pending) => q in pending
    case ClearWaiting(at, pending) => q == at || q in pending
    case ClearLocked(at, pending) => q == at || q in pending
    case _ => false
  }

  /** From `st` to `next`, queue `q` lost all that it held, and that is closed. */
  predicate Empties(st: State, next: State, q: QueueId) {
    && q < |st.queues| && q < |next.queues|
    && next.queues[q].conns == [] && Streams(st.queues[q].conns) <= next.closed
  }

  /** Some step of the run empties the queue. */
  predicate Cleared(st: State, config: Config, turns: seq<Turn>, q: QueueId)
    decreases |turns|
  {
    && turns != [] && Enabled(st, config, turns[0].a, turns[0].step)
    && var next := Apply(st, config, turns[0].a, turns[0].step);
       Empties(st, next, q) || Cleared(next, config, turns[1..], q)
  }

  /** The clear's own steps: a queue is before it until it empties that queue. */
  lemma ClearOwn(st: State, config: Config, a: nat, step: Step, q: QueueId)
    requires a < |st.tasks| && ToClear(st.tasks[a], q) && Enabled(st, config, a, step) && !step.ClearMap?
    requires step.ClearEnter? || step.ClearLock? || step.ClearQueue?
    ensures var next := Apply(st, config, a, step);
            a < |next.tasks| && (ToClear(next.tasks[a], q) || Empties(st, next, q))
  {
    hide Expired, Refers, Streams;
  }

  lemma ClearSteps(st: State, config: Config, a: nat, step: Step, q: QueueId)
    requires a < |st.tasks| && ToClear(st.tasks[a], q) && Enabled(st, config, a, step)
    ensures step.ClearEnter? || step.ClearLock? || step.ClearQueue? || step.ClearMap? || Aside(a, a, step)
  {
    hide Expired, Refers, Streams;
  }

  lemma ClearStep(st: State, config: Config, b: nat, step: Step, a: nat, q: QueueId)
    requires Linked(st) && Enabled(st, config, b, step)
    requires a < |st.tasks| && ToClear(st.tasks[a], q) && !(b == a && step.ClearMap?)
    ensures var next := Apply(st, config, b, step);
            a < |next.tasks| && (ToClear(next.tasks[a], q) || Empties(st, next, q))
  {
    hide Enabled, Apply, ToClear, Empties;
    if b == a {
      ClearSteps(st, config, a, step, q);
    }
    if Aside(a, b, step) {
      PlaceKept(st, config, b, step, a);
    } else {
      ClearOwn(st, config, a, step, q);
    }
  }

  /** As long as the clear has not come to its end, it has emptied a queue or has it before it. */
  lemma {:induction false} ClearOnAnyRun(st: State, config: Config, turns: seq<Turn>, a: nat, q: QueueId)
    requires Linked(st) && a < |st.tasks| && ToClear(st.tasks[a], q)
    requires RunFrom(st, config, turns).Some?
    requires forall k :: 0 <= k < |turns| && turns[k].a == a ==> !turns[k].step.ClearMap?
    ensures var end := RunFrom(st, config, turns).value;
            a < |end.tasks| && (ToClear(end.tasks[a], q) || Cleared(st, config, turns, q))
    decreases |turns|
  {
    hide Enabled, Apply, ToClear, Empties, Linked;
    if turns != [] {
      var t := turns[0];
      var next := Apply(st, config, t.a, t.step);
      ClearStep(st, config, t.a, t.step, a, q);
      LinkedStep(st, config, t.a, t.step);
      ClosedStays(st, config, t.a, t.step);
      if ToClear(next.tasks[a], q) {
        ClearOnAnyRun(next, config, turns[1..], a, q);
      } else {
        TasksStay(next, config, turns[1..]);
      }
    }
  }

  lemma {:induction false} TasksStay(st: State, config: Config, turns: seq<Turn>)
    ensures RunFrom(st, config, turns).Some? ==> |RunFrom(st, config, turns).value.tasks| == |st.tasks|
    decreases |turns|
  {
    hide Enabled, Apply;
    if turns != [] && Enabled(st, config, turns[0].a, turns[0].step) {
      ClosedStays(st, config, turns[0].a, turns[0].step);
      TasksStay(Apply(st, config, turns[0].a, turns[0].step), config, turns[1..]);
    }
  }

  lemma ClearBegins(st: State, config: Config, a: nat)
    requires Enabled(st, config, a, ClearBegin)
    ensures var next := Apply(st, config, a, ClearBegin);
            a < |next.tasks| && forall q :: q in st.pools.Values ==> ToClear(next.tasks[a], q)
  {
  }

  lemma ClearEnds(st: State, config: Config, a: nat)
    requires Enabled(st, config, a, ClearMap)
    ensures a < |st.tasks| && st.tasks[a].Clearing? && Apply(st, config, a, ClearMap).pools == map[]
    ensures forall q :: q in st.pools.Values ==> !ToClear(st.tasks[a], q)
  {
  }

  /**
   A whole clear, on every run: no host has an entry when it is over, and every queue that had one
   when it began, and still has one at the end, was emptied on the way, and what it held is closed.
   */
  lemma ClearEmptiesAll(st: State, config: Config, turns: seq<Turn>, a: nat)
    requires Safe(st, config) && turns != [] && turns[0] == Turn(a, ClearBegin)
    requires forall k :: 0 <= k < |turns| && turns[k].a == a ==> !turns[k].step.ClearMap?
    requires RunFrom(st, config, turns).Some?
    requires Enabled(RunFrom(st, config, turns).value, config, a, ClearMap)
    ensures var end := RunFrom(st, config, turns).value;
            && Apply(end, config, a, ClearMap).pools == map[]
            && forall q :: q in st.pools.Values && q in end.pools.Values ==> Cleared(st, config, turns, q)
  {
    hide Enabled, Apply, ToClear, Empties, Linked, Safe;
    var first := Apply(st, config, a, ClearBegin);
    var end := RunFrom(st, config, turns).value;
    SafeLinked(st, config);
    ClearBegins(st, config, a);
    LinkedStep(st, config, a, ClearBegin);
    ClearEnds(end, config, a);
    forall q | q in st.pools.Values && q in end.pools.Values ensures Cleared(st, config, turns, q) {
      ClearOnAnyRun(first, config, turns[1..], a, q);
    }
  }

  lemma SafeLinked(st: State, config: Config)
    requires Safe(st, config)
    ensures Linked(st)
  {
    hide Referenced, Locked, Placed, Ordered, Bounded, Counted;
  }
}
