/** Two things the pool does not promise, each shown by a run of it. */
module PoolLimits {
  import opened Bytes
  import opened HostQueue
  import opened Pool

  /** Going on with one more step. */
  lemma OneMore(st: State, mid: State, config: Config, turns: seq<Turn>, a: nat, step: Step)
    requires RunFrom(st, config, turns) == Some(mid) && Enabled(mid, config, a, step)
    ensures RunFrom(st, config, turns + [Turn(a, step)]) == Some(Apply(mid, config, a, step))
    decreases |turns|
  {
    hide Enabled, Apply;
    if turns == [] {
      assert [Turn(a, step)][1..] == [];
    } else {
      OneMore(Apply(st, config, turns[0].a, turns[0].step), mid, config, turns[1..], a, step);
      assert (turns + [Turn(a, step)])[1..] == turns[1..] + [Turn(a, step)];
    }
  }

  /** Two tasks around one connection, opened by a first miss; nothing closed, nothing returned yet. */
  function Two(pools: map<Addr, QueueId>, queues: seq<Guarded>, task0: Pc, task1: Pc, hand0: set<nat>): State {
    State(pools, queues, [task0, task1], [hand0, {}], {}, 1, 0, 1, 1, 0, 0, 1, 0, 0, 0)
  }

  /** `turns` leads to `st` from the empty pool. */
  ghost predicate Leads(config: Config, turns: seq<Turn>, st: State) {
    RunFrom(Init(2), config, turns) == Some(st)
  }

  lemma Take(config: Config, turns: seq<Turn>, st: State, a: nat, step: Step, next: State) returns (more: seq<Turn>)
    requires Leads(config, turns, st) && Enabled(st, config, a, step) && Apply(st, config, a, step) == next
    ensures Leads(config, more, next)
  {
    OneMore(Init(2), st, config, turns, a, step);
    more := turns + [Turn(a, step)];
  }

  /** Asking for a host never seen before: a miss, and a new connection in the caller's hand. */
  lemma FirstConnection(config: Config) returns (turns: seq<Turn>)
    ensures Leads(config, turns, Two(map[], [], Idle, Idle, {0}))
  {
    hide RunFrom;
    var s0 := State(map[], [], [Idle, Idle], [{}, {}], {}, 0, 0, 0, 0, 0, 0, 0, 0, 0, 0);
    turns := FirstState(config);
    turns := Take(config, turns, s0, 0, GetLookup(7), s0.(tasks := [Missed, Idle]));
    var s1 := s0.(tasks := [MissCounted, Idle], misses := 1);
    turns := Take(config, turns, s0.(tasks := [Missed, Idle]), 0, CountMiss, s1);
    var s2 := s1.(tasks := [TotalCounted, Idle], total := 1);
    turns := Take(config, turns, s1, 0, CountTotal, s2);
    var s3 := s2.(tasks := [Connecting, Idle], active := 1);
    turns := Take(config, turns, s2, 0, CountActive, s3);
    assert {} + {0} == {0};
    turns := Take(config, turns, s3, 0, Connected, Two(map[], [], Idle, Idle, {0}));
  }

  lemma FirstState(config: Config) returns (turns: seq<Turn>)
    ensures Leads(config, turns, State(map[], [], [Idle, Idle], [{}, {}], {}, 0, 0, 0, 0, 0, 0, 0, 0, 0, 0))
  {
    turns := [];
    assert Init(2).tasks == [Idle, Idle] && Init(2).hands == [{}, {}];
  }

  /** The caller gives connection 0 back; its host's queue is created, and the task waits for the lock. */
  lemma ReturnBegins(config: Config) returns (turns: seq<Turn>)
    requires config.keepAlive
    ensures Leads(config, turns, Two(map[7 := 0], [Guarded([], None)], ReturnWaiting(0, 0), Idle, {}))
  {
    hide RunFrom, Leads;
    var queues := [Guarded([], None)];
    turns := FirstConnection(config);
    assert {0} - {0} == {} && [] + queues == queues && map[][7 := 0] == map[7 := 0];
    turns := Take(config, turns, Two(map[], [], Idle, Idle, {0}), 0, ReturnEnter(7, 0, true),
                  Two(map[7 := 0], queues, ReturnWaiting(0, 0), Idle, {}));
  }

  /** A cleanup meanwhile finds the queue empty and goes on to remove its map entry. */
  lemma SweepSeesEmpty(config: Config, before: seq<Turn>) returns (turns: seq<Turn>)
    requires Leads(config, before, Two(map[7 := 0], [Guarded([], None)], ReturnWaiting(0, 0), Idle, {}))
    ensures Leads(config, turns, Two(map[7 := 0], [Guarded([], None)], ReturnWaiting(0, 0), Removing(7), {}))
  {
    hide RunFrom, Leads;
    var pools := map[7 := 0];
    var open, inside := [Guarded([], None)], [Guarded([], Some(1))];
    var waiting := ReturnWaiting(0, 0);
    var s1 := Two(pools, open, waiting, SweepWaiting(7, 0), {});
    turns := Take(config, before, Two(pools, open, waiting, Idle, {}), 1, SweepEnter(7), s1);
    var s2 := Two(pools, inside, waiting, SweepLocked(7, 0, 0), {});
    turns := Take(config, turns, s1, 1, SweepLock, s2);
    turns := Take(config, turns, s2, 1, SweepDone, Two(pools, open, waiting, Removing(7), {}));
  }

  function Stored(pools: map<Addr, QueueId>, task1: Pc): State {
    Two(pools, [Guarded([NewConn(0, 0)], None)], Idle, task1, {}).(active := 0, returned := 1)
  }

  /** The waiting return gets the lock and stores the connection. */
  lemma ReturnStores(config: Config, before: seq<Turn>, task1: Pc) returns (turns: seq<Turn>)
    requires config.maxPerHost > 0
    requires Leads(config, before, Two(map[7 := 0], [Guarded([], None)], ReturnWaiting(0, 0), task1, {}))
    ensures Leads(config, turns, Stored(map[7 := 0], task1))
  {
    hide RunFrom, Leads;
    var pools := map[7 := 0];
    var locked := Two(pools, [Guarded([], Some(0))], ReturnLocked(0, 0), task1, {});
    var waiting := Two(pools, [Guarded([], None)], ReturnWaiting(0, 0), task1, {});
    turns := Take(config, before, waiting, 0, ReturnLock, locked);
    assert [] + [NewConn(0, 0)] == [NewConn(0, 0)];
    turns := Take(config, turns, locked, 0, ReturnStore, Stored(pools, task1));
  }

  /**
   A cleanup that saw the new, still empty queue removes its map entry after the connection was
   stored in it: the connection is kept alive where no later `get_connection` looks.
   */
  lemma StoredButNotFindable(config: Config) returns (turns: seq<Turn>, st: State)
    requires config.keepAlive && config.maxPerHost > 0
    ensures Leads(config, turns, st)
    ensures st.pools == map[] && st.queues == [Guarded([NewConn(0, 0)], None)] && st.closed == {}
  {
    hide RunFrom, Leads;
    turns := ReturnBegins(config);
    turns := SweepSeesEmpty(config, turns);
    turns := ReturnStores(config, turns, Removing(7));
    st := Stored(map[], Idle);
    assert map[7 := 0] - {7} == map[];
    turns := Take(config, turns, Stored(map[7 := 0], Removing(7)), 1, RemoveEntry, st);
  }

  ghost predicate Orphan(st: State, q: QueueId) {
    q < |st.queues| && q !in st.pools.Values
  }

  lemma OrphanStep(st: State, config: Config, a: nat, step: Step, q: QueueId)
    requires Orphan(st, q) && Enabled(st, config, a, step)
    ensures Orphan(Apply(st, config, a, step), q)
  {
    hide Expired, Streams, Refers;
  }

  /** A queue that has lost its map entry never gets one again, on any run. */
  lemma {:induction false} OrphanForever(st: State, config: Config, turns: seq<Turn>, q: QueueId)
    requires Orphan(st, q)
    ensures RunFrom(st, config, turns).Some? ==> Orphan(RunFrom(st, config, turns).value, q)
    decreases |turns|
  {
    hide Enabled, Apply, Orphan;
    if turns != [] && Enabled(st, config, turns[0].a, turns[0].step) {
      OrphanStep(st, config, turns[0].a, turns[0].step, q);
      OrphanForever(Apply(st, config, turns[0].a, turns[0].step), config, turns[1..], q);
    }
  }

  /** A reused connection is in its caller's hand while `active` says none is. */
  lemma HeldButNotActive(config: Config) returns (turns: seq<Turn>, st: State)
    requires config.keepAlive && config.maxPerHost > 0
    ensures Leads(config, turns, st)
    ensures st.hands == [{0}, {}] && st.active == 0
  {
    hide RunFrom, Leads;
    turns := ReturnBegins(config);
    turns := ReturnStores(config, turns, Idle);
    turns, st := HitStored(config, turns);
  }

  lemma HitStored(config: Config, before: seq<Turn>) returns (turns: seq<Turn>, st: State)
    requires Leads(config, before, Stored(map[7 := 0], Idle))
    ensures Leads(config, turns, st)
    ensures st.hands == [{0}, {}] && st.active == 0
  {
    hide RunFrom, Leads;
    var s0 := Stored(map[7 := 0], Idle);
    var s1 := s0.(tasks := [GetWaiting(0), Idle]);
    turns := Take(config, before, s0, 0, GetLookup(7), s1);
    var s2 := s0.(tasks := [GetLocked(0), Idle], queues := [Guarded([NewConn(0, 0)], Some(0))]);
    turns := Take(config, turns, s1, 0, GetLock, s2);
    assert [NewConn(0, 0)][1..] == [];
    var s3 := s0.(tasks := [HitFound(0, 0), Idle], queues := [Guarded([], Some(0))]);
    turns := Take(config, turns, s2, 0, PopFresh, s3);
    var s4 := s3.(tasks := [HitCounted(0, 0), Idle], hits := 1);
    turns := Take(config, turns, s3, 0, CountHit, s4);
    assert {} + {0} == {0};
    st := s4.(tasks := [Idle, Idle], queues := [Guarded([], None)], hands := [{0}, {}], reused := 1);
    turns := Take(config, turns, s4, 0, CountReuse, st);
  }
}
