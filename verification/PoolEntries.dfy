/**
 When queued connections can be found: which steps take the map entry from a queue that holds
 some, and a condition on whole runs under which none ever does.
 */
module PoolEntries {
  import opened Bytes
  import opened HostQueue
  import opened Pool

  /** Connections wait in `q`, and no host leads there. */
  predicate Stranded(st: State, q: QueueId) {
    q < |st.queues| && st.queues[q].conns != [] && q !in st.pools.Values
  }

  /** No two hosts share a queue. */
  ghost predicate Unshared(st: State) {
    forall x, y :: x in st.pools && y in st.pools && st.pools[x] == st.pools[y] ==> x == y
  }

  lemma UnsharedStep(st: State, config: Config, a: nat, step: Step)
    requires Referenced(st) && Unshared(st) && Enabled(st, config, a, step)
    ensures Unshared(Apply(st, config, a, step))
  {
    hide Expired, Streams, Refers;
  }

  /** The steps that strand `q`: its entry goes while it holds connections, or one is stored without an entry. */
  predicate Strands(st: State, a: nat, step: Step, q: QueueId)
    requires a < |st.tasks|
  {
    var pc := st.tasks[a];
    match step
    case RemoveEntry =>
      && pc.Removing? && pc.addr in st.pools && st.pools[pc.addr] == q
      && q < |st.queues| && st.queues[q].conns != []
    case ClearMap => q in st.pools.Values && q < |st.queues| && st.queues[q].conns != []
    case ReturnStore => pc.ReturnLocked? && pc.q == q && q !in st.pools.Values
    case _ => false
  }

  lemma RemovedValues(pools: map<Addr, QueueId>, addr: Addr, q: QueueId)
    requires forall x, y :: x in pools && y in pools && pools[x] == pools[y] ==> x == y
    ensures q in (pools - {addr}).Values <==> q in pools.Values && !(addr in pools && pools[addr] == q)
  {
    if q in pools.Values && !(addr in pools && pools[addr] == q) {
      var x :| x in pools && pools[x] == q;
      assert x in pools - {addr};
    }
  }

  lemma AddedValues(pools: map<Addr, QueueId>, addr: Addr, added: QueueId, q: QueueId)
    requires addr !in pools
    ensures q in pools[addr := added].Values <==> q == added || q in pools.Values
  {
    assert pools[addr := added][addr] == added;
    if q in pools.Values {
      var x :| x in pools && pools[x] == q;
      assert pools[addr := added][x] == q;
    }
  }

  /** After any step, a queue is stranded exactly when the step strands it, or it was, and is not emptied. */
  lemma StrandedIff(st: State, config: Config, a: nat, step: Step, q: QueueId)
    requires Referenced(st) && Unshared(st) && Enabled(st, config, a, step)
    ensures var next := Apply(st, config, a, step);
            Stranded(next, q)
            <==> Strands(st, a, step, q) || (Stranded(st, q) && next.queues[q].conns != [])
  {
    hide Expired, Streams, Refers;
    match step {
      case RemoveEntry => RemovedValues(st.pools, st.tasks[a].addr, q);
      case ReturnEnter(addr, _, _) =>
        if addr !in st.pools {
          AddedValues(st.pools, addr, |st.queues|, q);
        }
      case _ =>
    }
  }

  // ----- whole runs

  predicate Sweeping(pc: Pc) {
    pc.SweepWaiting? || pc.SweepLocked?
  }

  predicate InClear(pc: Pc) {
    pc.Clearing? || pc.ClearWaiting? || pc.ClearLocked?
  }

  /** A task at `pc` may be about to take away the entry of `q`. */
  predicate Withdraws(st: State, pc: Pc, q: QueueId) {
    InClear(pc) || ((Sweeping(pc) || pc.Removing?) && pc.addr in st.pools && st.pools[pc.addr] == q)
  }

  /** No connection is on its way into a queue while a cleanup of its host or a clear is under way. */
  ghost predicate Careful(st: State) {
    forall a, b :: 0 <= a < |st.tasks| && 0 <= b < |st.tasks| && Returning(st.tasks[a])
      ==> !Withdraws(st, st.tasks[b], st.tasks[a].q)
  }

  ghost predicate CarefulRun(st: State, config: Config, turns: seq<Turn>)
    decreases |turns|
  {
    && Careful(st)
    && (turns == []
        || (&& Enabled(st, config, turns[0].a, turns[0].step)
            && CarefulRun(Apply(st, config, turns[0].a, turns[0].step), config, turns[1..])))
  }

  /** What a cleanup or a clear has established about the queues whose entries it may remove. */
  ghost predicate Justified(st: State, pc: Pc) {
    && (Sweeping(pc) && pc.addr in st.pools ==> st.pools[pc.addr] == pc.q)
    && (pc.Removing? && pc.addr in st.pools && st.pools[pc.addr] < |st.queues|
        ==> st.queues[st.pools[pc.addr]].conns == [])
    && (InClear(pc)
        ==> forall q :: q in st.pools.Values && q < |st.queues| && st.queues[q].conns != []
              ==> q in pc.pending || (!pc.Clearing? && q == pc.q))
  }

  ghost predicate Entered(st: State) {
    && Referenced(st) && Unshared(st)
    && (forall q :: !Stranded(st, q))
    && (forall a :: 0 <= a < |st.tasks| && Returning(st.tasks[a]) ==> st.tasks[a].q in st.pools.Values)
    && (forall a :: 0 <= a < |st.tasks| ==> Justified(st, st.tasks[a]))
  }

  lemma NoneStranded(st: State, config: Config, a: nat, step: Step)
    requires Entered(st) && Careful(st) && Enabled(st, config, a, step)
    ensures forall q :: !Stranded(Apply(st, config, a, step), q)
  {
    hide Enabled, Apply;
    forall q ensures !Stranded(Apply(st, config, a, step), q) {
      StrandedIff(st, config, a, step, q);
      NotStranding(st, config, a, step, q);
    }
  }

  lemma NotStranding(st: State, config: Config, a: nat, step: Step, q: QueueId)
    requires Entered(st) && Careful(st) && Enabled(st, config, a, step)
    ensures !Strands(st, a, step, q)
  {
    hide Expired, Streams, Refers;
    assert Justified(st, st.tasks[a]);
  }

  lemma EntryRemoved(st: State, config: Config, a: nat, step: Step, b: nat)
    requires Entered(st) && Careful(st) && Enabled(st, config, a, step) && b < |st.tasks|
    requires step.RemoveEntry? || step.ClearMap?
    ensures var next := Apply(st, config, a, step);
            Returning(next.tasks[b]) ==> next.tasks[b].q in next.pools.Values
  {
    hide Justified, Stranded, Refers;
    if Returning(st.tasks[b]) {
      assert !Withdraws(st, st.tasks[a], st.tasks[b].q);
      if step.RemoveEntry? {
        RemovedValues(st.pools, st.tasks[a].addr, st.tasks[b].q);
      }
    }
  }

  lemma EntryAdded(st: State, config: Config, a: nat, step: Step, b: nat)
    requires Entered(st) && Enabled(st, config, a, step) && b < |st.tasks| && step.ReturnEnter?
    ensures var next := Apply(st, config, a, step);
            Returning(next.tasks[b]) ==> next.tasks[b].q in next.pools.Values
  {
    hide Justified, Stranded, Refers;
    if step.addr !in st.pools {
      AddedValues(st.pools, step.addr, |st.queues|, |st.queues|);
      if Returning(st.tasks[b]) {
        AddedValues(st.pools, step.addr, |st.queues|, st.tasks[b].q);
      }
    }
  }

  lemma EntriesKept(st: State, config: Config, a: nat, step: Step, b: nat)
    requires Enabled(st, config, a, step) && b < |st.tasks|
    requires !step.RemoveEntry? && !step.ClearMap? && !step.ReturnEnter?
    ensures var next := Apply(st, config, a, step);
            && next.pools == st.pools
            && (Returning(next.tasks[b]) ==> Returning(st.tasks[b]) && next.tasks[b].q == st.tasks[b].q)
  {
    hide Expired, Streams, Refers;
  }

  lemma ReturnsEntered(st: State, config: Config, a: nat, step: Step, b: nat)
    requires Entered(st) && Careful(st) && Enabled(st, config, a, step) && b < |st.tasks|
    requires Framed(st, Apply(st, config, a, step), a)
    ensures var next := Apply(st, config, a, step);
            Returning(next.tasks[b]) ==> next.tasks[b].q in next.pools.Values
  {
    hide Enabled, Apply, Careful, Justified, Stranded;
    if step.RemoveEntry? || step.ClearMap? {
      EntryRemoved(st, config, a, step, b);
    } else if step.ReturnEnter? {
      EntryAdded(st, config, a, step, b);
    } else {
      EntriesKept(st, config, a, step, b);
    }
  }

  /** What a step can do to entries and queues without the task that takes it being in a clear or a sweep. */
  ghost predicate Mild(st: State, next: State) {
    && next.pools.Values <= st.pools.Values
    && (forall x :: x in next.pools ==> x in st.pools && next.pools[x] == st.pools[x])
    && |next.queues| == |st.queues|
    && forall q :: 0 <= q < |st.queues| && st.queues[q].conns == [] ==> next.queues[q].conns == []
  }

  /** All steps but the two of a return that add something. */
  lemma MildSteps(st: State, config: Config, a: nat, step: Step)
    requires Enabled(st, config, a, step) && !step.ReturnEnter? && !step.ReturnStore?
    ensures Mild(st, Apply(st, config, a, step))
  {
    hide Expired, Streams, Refers;
  }

  lemma MildJustified(st: State, next: State, pc: Pc)
    requires Referenced(st) && Justified(st, pc) && Mild(st, next)
    ensures Justified(next, pc)
  {
  }

  /** The step of a sweep, a clear or any other task that adds nothing keeps its own justification. */
  lemma OwnJustified(st: State, config: Config, a: nat, step: Step)
    requires Entered(st) && Enabled(st, config, a, step) && !step.ReturnEnter? && !step.ReturnStore?
    ensures var next := Apply(st, config, a, step); Justified(next, next.tasks[a])
  {
    hide Enabled, Apply, Justified, Stranded;
    if step.SweepEnter? || step.SweepLock? || step.SweepDrop? || step.SweepKeep? || step.SweepDone? {
      SweepJustified(st, config, a, step);
    } else if step.ClearBegin? || step.ClearEnter? || step.ClearLock? || step.ClearQueue? {
      ClearJustified(st, config, a, step);
    } else {
      ElseJustified(st, config, a, step);
    }
  }

  lemma SweepJustified(st: State, config: Config, a: nat, step: Step)
    requires Entered(st) && Enabled(st, config, a, step)
    requires step.SweepEnter? || step.SweepLock? || step.SweepDrop? || step.SweepKeep? || step.SweepDone?
    ensures var next := Apply(st, config, a, step); Justified(next, next.tasks[a])
  {
    hide Expired, Streams, Refers, Stranded;
    assert Justified(st, st.tasks[a]);
  }

  lemma ClearJustified(st: State, config: Config, a: nat, step: Step)
    requires Entered(st) && Enabled(st, config, a, step)
    requires step.ClearBegin? || step.ClearEnter? || step.ClearLock? || step.ClearQueue?
    ensures var next := Apply(st, config, a, step); Justified(next, next.tasks[a])
  {
    hide Expired, Streams, Refers, Stranded;
    assert Justified(st, st.tasks[a]);
  }

  /** The other steps leave their task outside, or change nothing that its justification speaks of. */
  lemma ElseJustified(st: State, config: Config, a: nat, step: Step)
    requires Entered(st) && Enabled(st, config, a, step) && !step.ReturnEnter? && !step.ReturnStore?
    requires !step.SweepEnter? && !step.SweepLock? && !step.SweepDrop? && !step.SweepKeep? && !step.SweepDone?
    requires !step.ClearBegin? && !step.ClearEnter? && !step.ClearLock? && !step.ClearQueue?
    ensures var next := Apply(st, config, a, step); Justified(next, next.tasks[a])
  {
    hide Expired, Streams, Refers, Stranded, Justified, Mild;
    MildSteps(st, config, a, step);
    MildJustified(st, Apply(st, config, a, step), st.tasks[a]);
    assert Apply(st, config, a, step).tasks[a] == st.tasks[a] || Outside(Apply(st, config, a, step).tasks[a]);
    OutsideJustified(Apply(st, config, a, step), Apply(st, config, a, step).tasks[a]);
  }

  predicate Outside(pc: Pc) {
    !Sweeping(pc) && !pc.Removing? && !InClear(pc)
  }

  lemma OutsideJustified(st: State, pc: Pc)
    ensures Outside(pc) ==> Justified(st, pc)
  {
  }

  /** A return that enters or stores meets nobody whom it could prove wrong. */
  lemma AddingJustified(st: State, config: Config, a: nat, step: Step, b: nat)
    requires Entered(st) && Careful(st) && Enabled(st, config, a, step) && b < |st.tasks|
    requires Careful(Apply(st, config, a, step)) && (step.ReturnEnter? || step.ReturnStore?)
    ensures var next := Apply(st, config, a, step); Justified(next, next.tasks[b])
  {
    hide Expired, Streams, Refers, Stranded;
    var next := Apply(st, config, a, step);
    assert Justified(st, st.tasks[b]);
    if step.ReturnStore? {
      assert Returning(st.tasks[a]) && !Withdraws(st, st.tasks[b], st.tasks[a].q);
    } else {
      assert Returning(next.tasks[a]) && !Withdraws(next, next.tasks[b], next.tasks[a].q);
    }
  }

  lemma JustifiedStep(st: State, config: Config, a: nat, step: Step, b: nat)
    requires Entered(st) && Careful(st) && Enabled(st, config, a, step) && b < |st.tasks|
    requires Framed(st, Apply(st, config, a, step), a) && Careful(Apply(st, config, a, step))
    ensures var next := Apply(st, config, a, step); Justified(next, next.tasks[b])
  {
    hide Enabled, Apply, Careful, Mild, Justified, Stranded;
    if step.ReturnEnter? || step.ReturnStore? {
      AddingJustified(st, config, a, step, b);
    } else if a == b {
      OwnJustified(st, config, a, step);
    } else {
      MildSteps(st, config, a, step);
      MildJustified(st, Apply(st, config, a, step), st.tasks[b]);
    }
  }

  lemma EnteredStep(st: State, config: Config, a: nat, step: Step)
    requires Entered(st) && Careful(st) && Enabled(st, config, a, step)
    requires Careful(Apply(st, config, a, step))
    ensures Entered(Apply(st, config, a, step))
  {
    hide Enabled, Apply, Careful, Justified, Stranded, Referenced, Unshared;
    var next := Apply(st, config, a, step);
    StepFramed(st, config, a, step);
    FramedReferenced(st, next, a);
    UnsharedStep(st, config, a, step);
    NoneStranded(st, config, a, step);
    forall b | 0 <= b < |next.tasks|
      ensures Justified(next, next.tasks[b])
      ensures Returning(next.tasks[b]) ==> next.tasks[b].q in next.pools.Values
    {
      JustifiedStep(st, config, a, step, b);
      ReturnsEntered(st, config, a, step, b);
    }
  }

  lemma {:induction false} CarefulRunEntered(st: State, config: Config, turns: seq<Turn>)
    requires Entered(st) && CarefulRun(st, config, turns)
    ensures RunFrom(st, config, turns).Some? && Entered(RunFrom(st, config, turns).value)
    decreases |turns|
  {
    hide Enabled, Apply, Entered, Careful;
    if turns != [] {
      EnteredStep(st, config, turns[0].a, turns[0].step);
      CarefulRunEntered(Apply(st, config, turns[0].a, turns[0].step), config, turns[1..]);
    }
  }

  /**
   On every run on which no return overlaps a cleanup of its host or a clear, every queued
   connection is in a queue that some host leads to.
   */
  lemma CarefulRunsStrandNothing(tasks: nat, config: Config, turns: seq<Turn>)
    requires CarefulRun(Init(tasks), config, turns)
    ensures RunFrom(Init(tasks), config, turns).Some?
    ensures forall q :: !Stranded(RunFrom(Init(tasks), config, turns).value, q)
  {
    hide CarefulRun, RunFrom;
    CarefulRunEntered(Init(tasks), config, turns);
  }
}
