/** The queue of idle connections to one host, as the code under its lock changes it in place. */
module HostQueue {
  import opened Bytes

  type Time = nat

  datatype Conn = Conn(stream: nat, createdAt: Time, lastUsed: Time, totalRequests: nat)

  datatype Config = Config(maxPerHost: nat, maxIdle: nat, maxLifetime: nat, keepAlive: bool)

  /** `duration_since` saturates at zero. */
  function Since(now: Time, t: Time): nat {
    if now >= t then now - t else 0
  }

  predicate Expired(c: Conn, now: Time, config: Config) {
    Since(now, c.lastUsed) > config.maxIdle || Since(now, c.createdAt) > config.maxLifetime
  }

  /** Idle for longer than one limit, or older than the other; a time still to come is no age at all. */
  lemma ExpiredIs(c: Conn, now: Time, config: Config)
    ensures Expired(c, now, config)
       <==> now as int - c.lastUsed as int > config.maxIdle || now as int - c.createdAt as int > config.maxLifetime
  {
  }

  /** Time only makes a connection expire. */
  lemma ExpiredStays(c: Conn, before: Time, now: Time, config: Config)
    requires before <= now && Expired(c, before, config)
    ensures Expired(c, now, config)
  {
  }

  /** A clock that stands still. */
  function Still(now: Time): nat -> Time {
    _ => now
  }

  function NewConn(stream: nat, now: Time): Conn {
    Conn(stream, now, now, 0)
  }

  function Used(c: Conn, now: Time): Conn {
    c.(lastUsed := now, totalRequests := c.totalRequests + 1)
  }

  function Streams(conns: seq<Conn>): (s: set<nat>)
    ensures forall k :: 0 <= k < |conns| ==> conns[k].stream in s
  {
    set c | c in conns :: c.stream
  }

  /** What is queued was never used again after it was returned, and returned in this order. */
  predicate InReturnOrder(conns: seq<Conn>) {
    && (forall k :: 0 <= k < |conns| ==> conns[k].createdAt == conns[k].lastUsed)
    && (forall i, j :: 0 <= i < j < |conns| ==> conns[i].lastUsed <= conns[j].lastUsed)
  }

  class Queue {
    const config: Config
    var conns: seq<Conn>

    /** The loop of `get_connection`: pop until one is not expired. `clock(k)` is read at pop `k`. */
    method TakeFresh(clock: nat -> Time) returns (hit: Option<Conn>, ghost dropped: nat)
      modifies this
      ensures dropped <= |old(conns)|
      ensures forall k :: 0 <= k < dropped ==> Expired(old(conns)[k], clock(k), config)
      ensures if dropped < |old(conns)| then
                && !Expired(old(conns)[dropped], clock(dropped), config)
                && hit == Some(old(conns)[dropped].(lastUsed := clock(dropped),
                                                    totalRequests := old(conns)[dropped].totalRequests + 1))
                && conns == old(conns)[dropped + 1..]
              else hit == None && conns == []
    {
      var pops := 0;
      while conns != []
        invariant pops <= |old(conns)| && conns == old(conns)[pops..]
        invariant forall k :: 0 <= k < pops ==> Expired(old(conns)[k], clock(k), config)
        decreases |conns|
      {
        var conn := conns[0];
        conns := conns[1..];
        if !Expired(conn, clock(pops), config) {
          return Some(Used(conn, clock(pops))), pops;
        }
        pops := pops + 1;
      }
      return None, pops;
    }

    /** The end of `return_connection`: keep the connection unless the queue is full. */
    method Offer(stream: nat, now: Time) returns (kept: bool)
      modifies this
      ensures kept <==> |old(conns)| < config.maxPerHost
      ensures conns == if kept then old(conns) + [Conn(stream, now, now, 0)] else old(conns)
    {
      if |conns| >= config.maxPerHost {
        return false;
      }
      conns := conns + [NewConn(stream, now)];
      return true;
    }

    /** `retain(|conn| !conn.is_expired(..))`; `clock(k)` is read at entry `k`. */
    method Retain(clock: nat -> Time)
      modifies this
      ensures conns == Retained(old(conns), clock, config)
    {
      var kept: seq<Conn> := [];
      for k := 0 to |conns|
        invariant conns == old(conns)
        invariant kept == Retained(conns[..k], clock, config)
      {
        assert conns[..k + 1][..k] == conns[..k];
        if !Expired(conns[k], clock(k), config) {
          kept := kept + [conns[k]];
        }
      }
      assert conns[..|conns|] == conns;
      conns := kept;
    }
  }

  function Retained(conns: seq<Conn>, clock: nat -> Time, config: Config): (r: seq<Conn>)
    ensures |r| <= |conns|
  {
    if conns == [] then []
    else
      var n := |conns| - 1;
      Retained(conns[..n], clock, config) + if Expired(conns[n], clock(n), config) then [] else [conns[n]]
  }

  /** The cleanup keeps each unexpired connection as often as it was there, and no expired one. */
  lemma {:induction false} RetainedIs(conns: seq<Conn>, now: Time, config: Config, c: Conn)
    ensures multiset(Retained(conns, Still(now), config))[c]
         == if Expired(c, now, config) then 0 else multiset(conns)[c]
    decreases |conns|
  {
    hide Expired;
    if conns != [] {
      var n := |conns| - 1;
      RetainedIs(conns[..n], now, config, c);
      assert conns == conns[..n] + [conns[n]];
    }
  }

  /** And what it keeps stays in order. */
  lemma {:induction false} RetainedOrdered(conns: seq<Conn>, clock: nat -> Time, config: Config)
    requires InReturnOrder(conns)
    ensures InReturnOrder(Retained(conns, clock, config))
    ensures forall k :: 0 <= k < |Retained(conns, clock, config)| ==> Retained(conns, clock, config)[k] in conns
    decreases |conns|
  {
    hide Expired;
    if conns != [] {
      var n := |conns| - 1;
      RetainedOrdered(conns[..n], clock, config);
    }
  }

  /** With the clock standing still, a connection is reused exactly when an unexpired one is queued. */
  method TakeFreshNow(q: Queue, now: Time) returns (hit: Option<Conn>)
    modifies q
    ensures hit.Some? <==> exists k :: 0 <= k < |old(q.conns)| && !Expired(old(q.conns)[k], now, q.config)
    ensures hit.Some? ==> exists k :: 0 <= k < |old(q.conns)| && hit.value.stream == old(q.conns)[k].stream
                            && !Expired(old(q.conns)[k], now, q.config)
                            && q.conns == old(q.conns)[k + 1..]
                            && forall j :: 0 <= j < k ==> Expired(old(q.conns)[j], now, q.config)
    ensures hit.None? ==> q.conns == []
  {
    ghost var dropped;
    hit, dropped := q.TakeFresh(Still(now));
    assert hit.Some? ==> q.conns == old(q.conns)[dropped + 1..];
  }

  // ----- return order

  /** In return order the expired connections are a prefix: whoever is behind a live one is live. */
  lemma ExpiredIsPrefix(conns: seq<Conn>, now: Time, config: Config, i: nat, j: nat)
    requires InReturnOrder(conns) && i < j < |conns|
    requires Expired(conns[j], now, config)
    ensures Expired(conns[i], now, config)
  {
  }

  /** So a get leaves nothing expired behind the connection it reuses, and loses nothing live. */
  lemma TakeLosesNothingLive(conns: seq<Conn>, now: Time, config: Config, n: nat)
    requires InReturnOrder(conns) && n <= |conns|
    requires forall k :: 0 <= k < n ==> Expired(conns[k], now, config)
    requires n < |conns| ==> !Expired(conns[n], now, config)
    ensures forall k :: 0 <= k < |conns| ==> (Expired(conns[k], now, config) <==> k < n)
    ensures Retained(conns, Still(now), config) == conns[n..]
  {
    forall k | n < k < |conns| ensures !Expired(conns[k], now, config) {
      if Expired(conns[k], now, config) {
        ExpiredIsPrefix(conns, now, config, n, k);
      }
    }
    RetainSuffix(conns, now, config, n);
  }

  lemma {:induction false} RetainSuffix(conns: seq<Conn>, now: Time, config: Config, n: nat)
    requires n <= |conns|
    requires forall k :: 0 <= k < |conns| ==> (Expired(conns[k], now, config) <==> k < n)
    ensures Retained(conns, Still(now), config) == conns[n..]
    decreases |conns|
  {
    if conns != [] {
      var m := |conns| - 1;
      if n <= m {
        RetainSuffix(conns[..m], now, config, n);
        assert conns[..m][n..] + [conns[m]] == conns[n..];
      } else {
        RetainSuffix(conns[..m], now, config, m);
      }
    }
  }

  /** Storing at the current time keeps the order, and so does dropping any entry. */
  lemma OrderKept(conns: seq<Conn>, stream: nat, now: Time, i: nat)
    requires InReturnOrder(conns)
    requires forall k :: 0 <= k < |conns| ==> conns[k].lastUsed <= now
    ensures InReturnOrder(conns + [NewConn(stream, now)])
    ensures i < |conns| ==> InReturnOrder(conns[..i] + conns[i + 1..])
  {
  }
}
