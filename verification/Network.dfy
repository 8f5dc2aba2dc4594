/**
 A connected socket seen from the server: the bytes the peer sends before it closes, a schedule
 that decides what each read returns, and a clock. The schedule is arbitrary, so it stands for
 every way the network can slice the stream, stall or fail.
 */
module Network {
  import opened Bytes

  /** What the network does at one read. */
  datatype Event =
    | Deliver(n: nat)  // up to n bytes are there (at least one, unless the peer has closed)
    | Late             // nothing arrives before the read's timeout
    | Blocked          // the read reports WouldBlock
    | Broken           // the read reports any other error

  /** What the reader sees; `Data([])` is end of file. */
  datatype Outcome = Data(bytes: seq<Byte>) | TimedOut | WouldBlock | Failed

  /** How many bytes a read with `room` to fill gets. */
  function Amount(n: nat, room: nat, available: nat): (k: nat)
    ensures k <= room && k <= available
    ensures k == 0 <==> room == 0 || available == 0
  {
    if room == 0 || available == 0 then 0 else Max(1, Min(n, Min(room, available)))
  }

  class Socket {
    const stream: seq<Byte>
    const schedule: nat -> Event
    const clock: nat -> nat
    var pos: nat
    var ticks: nat

    constructor (stream: seq<Byte>, schedule: nat -> Event, clock: nat -> nat)
      ensures this.stream == stream && this.schedule == schedule && this.clock == clock
      ensures pos == 0 && ticks == 0
    {
      this.stream, this.schedule, this.clock := stream, schedule, clock;
      pos, ticks := 0, 0;
    }

    ghost predicate Valid()
      reads this`pos
    {
      pos <= |stream|
    }

    /** A read under a timeout. */
    method Read(room: nat) returns (o: Outcome)
      requires Valid()
      modifies this
      ensures Valid() && ticks == old(ticks) + 1
      ensures match schedule(old(ticks))
              case Deliver(n) =>
                var k := Amount(n, room, |stream| - old(pos));
                pos == old(pos) + k && o == Data(stream[old(pos)..pos])
              case Late => pos == old(pos) && o == TimedOut
              case Blocked => pos == old(pos) && o == WouldBlock
              case Broken => pos == old(pos) && o == Failed
    {
      match schedule(ticks) {
        case Deliver(n) =>
          var k := Amount(n, room, |stream| - pos);
          o := Data(stream[pos..pos + k]);
          pos := pos + k;
        case Late => o := TimedOut;
        case Blocked => o := WouldBlock;
        case Broken => o := Failed;
      }
      ticks := ticks + 1;
    }

    /** A read without a timeout: it waits until bytes, end of file or an error is there. */
    method ReadAwait(room: nat) returns (o: Outcome)
      requires Valid()
      modifies this
      ensures Valid() && ticks == old(ticks) + 1
      ensures o.Data? || o.Failed?
      ensures o.Failed? <==> schedule(old(ticks)).Blocked? || schedule(old(ticks)).Broken?
      ensures o.Failed? ==> pos == old(pos)
      ensures o.Data? ==> old(pos) <= pos <= old(pos) + room && o.bytes == stream[old(pos)..pos]
      ensures o.Data? ==> (o.bytes == [] <==> room == 0 || old(pos) == |stream|)
    {
      var n := match schedule(ticks) case Deliver(n) => n case _ => 1;
      if schedule(ticks).Blocked? || schedule(ticks).Broken? {
        o := Failed;
      } else {
        var k := Amount(n, room, |stream| - pos);
        o := Data(stream[pos..pos + k]);
        pos := pos + k;
      }
      ticks := ticks + 1;
    }

    /** From read `from` on, every read delivers data or end of file. */
    ghost predicate DataOnly(from: nat)
    {
      forall t :: from <= t ==> schedule(t).Deliver?
    }

    /** No `WouldBlock` among the reads `from <= t < end`. */
    ghost predicate NeverBlocks(from: nat, end: nat)
    {
      forall t :: from <= t < end ==> !schedule(t).Blocked?
    }

    /** No `WouldBlock` from read `from` on. */
    ghost predicate BlocksNever(from: nat)
    {
      forall t :: from <= t ==> !schedule(t).Blocked?
    }

    /** What keeps a loop of timed reads with a deadline from going on for ever: time, or the reads. */
    ghost predicate Ending(from: nat, deadline: nat)
    {
      Passes(from, deadline) || BlocksNever(from)
    }

    function Elapsed(from: nat, t: nat): int {
      clock(t) - clock(from)
    }

    /** Time goes on: some read is started after the deadline, and so is every later one. */
    ghost predicate Passes(from: nat, deadline: nat)
    {
      exists last: nat :: Overdue(from, deadline, last)
    }

    ghost predicate Overdue(from: nat, deadline: nat, last: nat)
    {
      forall t :: last <= t ==> Elapsed(from, t) > deadline
    }

    /** The next `n` reads are started before the deadline. */
    ghost predicate InTime(from: nat, n: nat, deadline: nat)
    {
      forall t :: from <= t <= from + n ==> Elapsed(from, t) <= deadline
    }
  }
}
