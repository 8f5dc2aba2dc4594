/**
 Whether it matters how the network slices a stream that goes on behind its first request. A
 reader hands on the bytes that came along with the header, so what it gives depends on the
 slicing exactly when some read of the header loop may reach past the end of the request.
 */
module Slicing {
  import opened Bytes
  import opened Network
  import opened Reader

  ghost predicate AllData(schedule: nat -> Event) {
    forall t :: schedule(t).Deliver?
  }

  /** The body that a buffering reader gives on this schedule. */
  function Given(s: seq<Byte>, schedule: nat -> Event, options: Options, capped: bool): seq<Byte>
    requires HeaderEnd(s).Some?
  {
    var e := HeaderEnd(s).value;
    s[e..Max(e, Got(s, HeaderFill(s, schedule, 0, 0, options, capped)))]
  }

  /** The body that a streaming reader gives: without a declared length, all to the end of file. */
  function StreamGiven(s: seq<Byte>, schedule: nat -> Event, options: Options): seq<Byte>
    requires HeaderEnd(s).Some?
  {
    if LengthOf(s).None? then s[HeaderEnd(s).value..] else Given(s, schedule, options, true)
  }

  /** Bytes follow the request, and some header read may get them: from `p` bytes on, before the header's end. */
  predicate Overreads(s: seq<Byte>, options: Options, capped: bool, p: nat)
    requires HeaderEnd(s).Some?
  {
    && p < HeaderEnd(s).value && p < MAX_HEADER_SIZE
    && RequestEnd(s) < |s| && RequestEnd(s) < NextSize(options, capped, p)
  }

  ghost predicate MayOverread(s: seq<Byte>, options: Options, capped: bool)
    requires HeaderEnd(s).Some?
  {
    exists p :: Overreads(s, options, capped, p)
  }

  // ----- what a header loop can have taken

  lemma HeaderNotYet(s: seq<Byte>, p: nat)
    requires HeaderEnd(s).Some? && p <= |s|
    ensures HeaderEnd(s[..p]).Some? <==> HeaderEnd(s).value <= p
  {
    hide HeaderEnd, LengthOf;
    HeaderOfPrefix(s, p);
  }

  /** At least the header, and no more than its last read may bring. */
  lemma {:induction false} FillReach(s: seq<Byte>, schedule: nat -> Event, t: nat, p: nat, options: Options,
                                     capped: bool)
    returns (q: nat)
    requires HeaderEnd(s).Some? && p < HeaderEnd(s).value <= MAX_HEADER_SIZE && AllData(schedule)
    ensures q < HeaderEnd(s).value
    ensures HeaderEnd(s).value <= HeaderFill(s, schedule, t, p, options, capped) <= NextSize(options, capped, q)
    decreases |s| - p
  {
    hide HeaderEnd, NextSize, HeaderFill;
    HeaderNotYet(s, p);
    FillStep(s, schedule, t, p, options, capped);
    var next := p + Amount(schedule(t).n, NextSize(options, capped, p) - p, |s| - p);
    HeaderNotYet(s, next);
    if HeaderEnd(s).value <= next {
      q := p;
      FillStops(s, schedule, t + 1, next, options, capped);
    } else {
      q := FillReach(s, schedule, t + 1, next, options, capped);
    }
  }

  /** One byte at a time up to position `p`, and then all that is asked for. */
  function Drip(p: nat, rest: nat): nat -> Event {
    t => Deliver(if t < p then 1 else rest)
  }

  /** Byte by byte, the loop comes by every position before the header's end. */
  lemma {:induction false} DripReaches(s: seq<Byte>, p: nat, rest: nat, q: nat, options: Options, capped: bool)
    requires HeaderEnd(s).Some? && q <= p < HeaderEnd(s).value <= MAX_HEADER_SIZE
    ensures HeaderFill(s, Drip(p, rest), q, q, options, capped) == HeaderFill(s, Drip(p, rest), p, p, options, capped)
    decreases p - q
  {
    hide HeaderEnd, NextSize, HeaderFill;
    if q < p {
      HeaderNotYet(s, q);
      FillStep(s, Drip(p, rest), q, q, options, capped);
      DripReaches(s, p, rest, q + 1, options, capped);
    }
  }

  /** What a last read at position `p` brings, when it ends the header. */
  lemma LastRead(s: seq<Byte>, p: nat, rest: nat, options: Options, capped: bool)
    requires HeaderEnd(s).Some? && p < HeaderEnd(s).value <= MAX_HEADER_SIZE
    requires var next := p + Amount(rest, NextSize(options, capped, p) - p, |s| - p); HeaderEnd(s).value <= next
    ensures HeaderFill(s, Drip(p, rest), 0, 0, options, capped)
         == p + Amount(rest, NextSize(options, capped, p) - p, |s| - p)
  {
    hide HeaderEnd, NextSize, HeaderFill;
    var next := p + Amount(rest, NextSize(options, capped, p) - p, |s| - p);
    DripReaches(s, p, rest, 0, options, capped);
    HeaderNotYet(s, p);
    FillStep(s, Drip(p, rest), p, p, options, capped);
    HeaderNotYet(s, next);
    FillStops(s, Drip(p, rest), p + 1, next, options, capped);
  }

  // ----- the exact condition

  /** Two schedules that show it: the header byte by byte, and all at once from position `p` on. */
  lemma SlicingShows(s: seq<Byte>, options: Options, capped: bool, p: nat)
    requires HeaderEnd(s).Some? && HeaderEnd(s).value <= MAX_HEADER_SIZE && RequestEnd(s) <= USIZE_MAX
    requires Overreads(s, options, capped, p)
    ensures var e := HeaderEnd(s).value;
            Given(s, Drip(e - 1, 1), options, capped) != Given(s, Drip(p, |s|), options, capped)
  {
    hide HeaderEnd, NextSize, HeaderFill, LengthOf;
    var e := HeaderEnd(s).value;
    LastRead(s, e - 1, 1, options, capped);
    LastRead(s, p, |s|, options, capped);
    assert |Given(s, Drip(e - 1, 1), options, capped)| == RequestEnd(s) - e;
    assert |Given(s, Drip(p, |s|), options, capped)| > RequestEnd(s) - e;
  }

  /** Where no header read may reach past the request, every slicing gives the same. */
  lemma SlicingHides(s: seq<Byte>, schedule: nat -> Event, options: Options, capped: bool)
    requires HeaderEnd(s).Some? && HeaderEnd(s).value <= MAX_HEADER_SIZE && RequestEnd(s) <= USIZE_MAX
    requires !MayOverread(s, options, capped) && AllData(schedule)
    ensures Given(s, schedule, options, capped) == s[HeaderEnd(s).value..Min(RequestEnd(s), |s|)]
  {
    hide HeaderEnd, NextSize, HeaderFill, LengthOf;
    var q := FillReach(s, schedule, 0, 0, options, capped);
    assert !Overreads(s, options, capped, q);
  }

  /** The body depends on the slicing exactly when bytes follow and a header read may reach them. */
  lemma SlicingMattersIff(s: seq<Byte>, options: Options, capped: bool)
    requires HeaderEnd(s).Some? && HeaderEnd(s).value <= MAX_HEADER_SIZE && RequestEnd(s) <= USIZE_MAX
    ensures (exists f, g ::
               AllData(f) && AllData(g) && Given(s, f, options, capped) != Given(s, g, options, capped))
        <==> MayOverread(s, options, capped)
  {
    hide HeaderEnd, RequestEnd, Given, Overreads;
    if p :| Overreads(s, options, capped, p) {
      SlicingShows(s, options, capped, p);
      assert AllData(Drip(HeaderEnd(s).value - 1, 1)) && AllData(Drip(p, |s|));
    } else {
      forall f, g | AllData(f) && AllData(g) ensures Given(s, f, options, capped) == Given(s, g, options, capped) {
        SlicingHides(s, f, options, capped);
        SlicingHides(s, g, options, capped);
      }
    }
  }

  /** The same for the streaming reader, which without a declared length always reads on to the end. */
  lemma StreamSlicingMattersIff(s: seq<Byte>, options: Options)
    requires HeaderEnd(s).Some? && HeaderEnd(s).value <= MAX_HEADER_SIZE && RequestEnd(s) <= USIZE_MAX
    ensures (exists f, g ::
               AllData(f) && AllData(g) && StreamGiven(s, f, options) != StreamGiven(s, g, options))
        <==> LengthOf(s).Some? && MayOverread(s, options, true)
  {
    hide HeaderEnd, RequestEnd, Given, MayOverread, LengthOf;
    SlicingMattersIff(s, options, true);
    if LengthOf(s).Some? && MayOverread(s, options, true) {
      var f, g :| AllData(f) && AllData(g) && Given(s, f, options, true) != Given(s, g, options, true);
      assert StreamGiven(s, f, options) != StreamGiven(s, g, options);
    } else {
      forall f, g | AllData(f) && AllData(g) ensures StreamGiven(s, f, options) == StreamGiven(s, g, options) {
      }
    }
  }

  /** A stream without a byte behind its request gives its whole body to every reader. */
  lemma GivenIsBody(s: seq<Byte>, schedule: nat -> Event, options: Options, capped: bool)
    requires HeaderEnd(s).Some? && RequestEnd(s) <= USIZE_MAX && |s| <= RequestEnd(s)
    ensures Given(s, schedule, options, capped) == s[HeaderEnd(s).value..]
  {
    hide HeaderEnd, HeaderFill, LengthOf;
  }
}
