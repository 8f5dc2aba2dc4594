/**
 The ways to receive a request: buffered, streamed, in an arena, or chosen by the announced
 length. What each hands on is a function of the schedule, and the same for all of them when no
 byte follows the request.
 */
module Paths {
  import opened Bytes
  import opened Search
  import opened Network
  import opened Reader
  import opened Arena
  import opened RequestBody
  import opened Slicing
  import Split

  datatype AutoResult = InArena(arena: ArenaBody) | Streaming(headerBytes: seq<Byte>, body: Body)

  method ParseRequestAuto(sock: Socket, options: Options, arenaCap: nat) returns (r: Result<AutoResult, ReadError>)
    requires sock.Valid() && sock.Ending(sock.ticks, options.Deadline())
    modifies sock
    ensures sock.Valid() && old(sock.pos) <= sock.pos
    ensures r.Ok? && r.value.Streaming? ==> fresh(r.value.body)
    ensures r.Ok?
        ==> var s := Remaining(sock, old(sock.pos));
            && HeaderEnd(s).Some? && !TooLong(s, options)
            && match r.value
               case InArena(arena) =>
                 && arena.Valid() && arena.headerEnd == arena.bodyStart == HeaderEnd(s).value
                 && arena.data == Taken(sock, old(sock.pos))
                 && LengthOf(s).Some? && LengthOf(s).value <= arenaCap
               case Streaming(headerBytes, body) =>
                 && headerBytes == s[..HeaderEnd(s).value]
                 && body.Valid() && body.contentLength == LengthOf(s) && body.delivered == []
                 && body.stream == body.source == sock && body.origin == sock.pos
                 && body.leftover == body.first
                 && headerBytes + body.first == Taken(sock, old(sock.pos))
                 && (LengthOf(s).None? || LengthOf(s).value > arenaCap)
    ensures r == Err(TooLarge)
        ==> var s := Remaining(sock, old(sock.pos)); HeaderEnd(s).Some? && TooLong(s, options)
    ensures Prompt(sock, old(sock.pos), old(sock.ticks), options)
        ==> var s := Remaining(sock, old(sock.pos));
            var fill := HeaderFill(s, sock.schedule, old(sock.ticks), 0, options, true);
            && (r.Ok? <==> !TooLong(s, options)) && (r == Err(TooLarge) <==> TooLong(s, options))
            && (r.Ok? && r.value.InArena? && RequestEnd(s) <= USIZE_MAX ==> r.value.arena.data == s[..Got(s, fill)])
            && (r.Ok? && r.value.Streaming? ==> sock.pos - old(sock.pos) == fill)
  {
    hide HeaderEnd, LengthOf, HeaderFill;
    ghost var p0, t0 := sock.pos, sock.ticks;
    var read, headerPeak := ReadHeadersOnly(sock, options);
    if read.Err? {
      return Err(read.error);
    }
    var h := read.value;
    ghost var p1, t1 := sock.pos, sock.ticks;
    if h.contentLength.Some? && h.contentLength.value <= arenaCap {
      var fullBody, bodyPeak := ReadRemainingBody(h.leftover, sock, h.contentLength, options);
      var headerEnd := |h.headerBytes|;
      var full := h.headerBytes + fullBody;
      Assoc(h.headerBytes, h.leftover, Taken(sock, p1));
      SliceSplit(sock.stream, p0, p1, sock.pos);
      TakenIsPrefix(sock, p0, full);
      return Ok(InArena(ArenaBody(full, headerEnd, headerEnd)));
    }
    var body := new Body.NewStreaming(h.leftover, sock, h.contentLength, options.maxBodySize);
    PrefixOfTaken(sock, p0, h.headerBytes, h.leftover);
    return Ok(Streaming(h.headerBytes, body));
  }

  lemma PrefixOfTaken(sock: Socket, p0: nat, a: seq<Byte>, b: seq<Byte>)
    requires p0 <= sock.pos <= |sock.stream| && a + b == Taken(sock, p0)
    ensures Remaining(sock, p0)[..|a|] == a
  {
    assert sock.stream[p0..][..|a|] == sock.stream[p0..sock.pos][..|a|] == (a + b)[..|a|];
  }

  // ----- the paths agree

  /** One run of the network: how it slices the stream, and how time passes. */
  datatype Run = Run(schedule: nat -> Event, clock: nat -> nat)

  /** Only data and end of file, and the header in time. */
  ghost predicate Steady(run: Run, n: nat, deadline: nat) {
    && AllData(run.schedule)
    && forall t: nat :: t <= n ==> run.clock(t) <= run.clock(0) + deadline
  }

  /** A header block within 64 KiB, on a steady run, of a request that the options accept. */
  ghost predicate Arrives(s: seq<Byte>, run: Run, options: Options) {
    && HeaderEnd(s).Some? && HeaderEnd(s).value <= MAX_HEADER_SIZE
    && Accepts(s, options) && options.readMaxRetry > 0
    && Steady(run, |s|, options.Deadline())
  }

  /** A Content-Length, and no byte beyond that length. */
  predicate OneRequest(s: seq<Byte>) {
    HeaderEnd(s).Some? && LengthOf(s).Some? && |s| <= RequestEnd(s)
  }

  function BodyOf(s: seq<Byte>): seq<Byte>
    requires HeaderEnd(s).Some?
  {
    s[HeaderEnd(s).value..]
  }

  method Connect(stream: seq<Byte>, run: Run, options: Options) returns (sock: Socket)
    requires Arrives(stream, run, options)
    ensures fresh(sock) && sock.Valid() && sock.pos == 0 && sock.ticks == 0
    ensures sock.stream == stream == Remaining(sock, 0) && sock.schedule == run.schedule
    ensures sock.Ending(0, options.Deadline()) && Prompt(sock, 0, 0, options)
  {
    hide HeaderEnd, LengthOf;
    sock := new Socket(stream, run.schedule, run.clock);
    assert stream[0..] == stream;
    assert sock.BlocksNever(0);
  }

  /** Such a run takes the whole header, whatever its schedule. */
  lemma FillHolds(s: seq<Byte>, run: Run, options: Options, capped: bool)
    requires Arrives(s, run, options)
    ensures HeaderEnd(s).value <= HeaderFill(s, run.schedule, 0, 0, options, capped)
  {
    hide HeaderEnd, HeaderFill, Accepts, NextSize;
    var q := FillReach(s, run.schedule, 0, 0, options, capped);
  }

  /** `parse_request`: everything is read, then split at the end of the header. */
  method BufferedBody(stream: seq<Byte>, run: Run, options: Options) returns (body: seq<Byte>)
    requires Arrives(stream, run, options)
    ensures body == Given(stream, run.schedule, options, true)
  {
    hide HeaderEnd, LengthOf, HeaderFill, Got;
    var sock := Connect(stream, run, options);
    var r, peak := GetBytesFromReader(sock, options);
    ghost var got := Got(stream, HeaderFill(stream, run.schedule, 0, 0, options, true));
    FillHolds(stream, run, options, true);
    HeaderBodyOf(stream, got);
    body := Split.HeaderBody(r.value).1;
  }

  lemma HeaderBodyOf(s: seq<Byte>, n: nat)
    requires HeaderEnd(s).Some? && HeaderEnd(s).value <= n <= |s|
    ensures Split.HeaderBody(s[..n]).1 == s[HeaderEnd(s).value..n]
  {
    hide LengthOf, Find;
    HeaderOfPrefix(s, n);
  }

  /** `parse_request_streaming` and then `bytes(None)`. */
  method StreamedBody(stream: seq<Byte>, run: Run, options: Options) returns (body: seq<Byte>)
    requires Arrives(stream, run, options)
    ensures body == StreamGiven(stream, run.schedule, options)
  {
    hide HeaderEnd, LengthOf, HeaderFill, StreamGiven;
    var sock := Connect(stream, run, options);
    var r, peak := ReadHeadersOnly(sock, options);
    var h := r.value;
    var b := new Body.NewStreaming(h.leftover, sock, h.contentLength, options.maxBodySize);
    FreshBodyRest(b, stream, h.headerBytes, run, options);
    var all := b.Bytes(None);
    body := all.value;
  }

  /** A body made from what a header read left holds what a streaming reader is to give. */
  lemma FreshBodyRest(b: Body, s: seq<Byte>, headerBytes: seq<Byte>, run: Run, options: Options)
    requires Arrives(s, run, options)
    requires b.Valid() && b.stream != null && b.stream == b.source && b.delivered == []
    requires b.stream.stream == s && b.first == b.leftover && b.contentLength == LengthOf(s)
    requires headerBytes + b.leftover == s[0..b.stream.pos]
    requires HeaderEnd(s) == Some(|headerBytes|)
    requires b.stream.pos == HeaderFill(s, run.schedule, 0, 0, options, true)
    ensures b.Rest() == StreamGiven(s, run.schedule, options)
  {
    hide HeaderEnd, LengthOf, HeaderFill;
    var pos, e := b.stream.pos, |headerBytes|;
    assert b.leftover == s[e..pos];
    FillHolds(s, run, options, true);
    var wanted := Wanted(LengthOf(s), pos - e, |s| - pos);
    assert b.Pending() == s[pos..pos + wanted];
    SliceSplit(s, e, pos, pos + wanted);
    assert s[e..] == s[e..|s|];
  }

  /** `parse_request_arena`. */
  method ArenaDirectBody(stream: seq<Byte>, run: Run, options: Options) returns (body: seq<Byte>)
    requires Arrives(stream, run, options)
    ensures body == Given(stream, run.schedule, options, false)
  {
    hide HeaderEnd, LengthOf, HeaderFill;
    var sock := Connect(stream, run, options);
    var r, peak := GetBytesArenaDirect(sock, options);
    FillHolds(stream, run, options, false);
    ghost var got := Got(stream, HeaderFill(stream, run.schedule, 0, 0, options, false));
    assert stream[..got][HeaderEnd(stream).value..] == stream[HeaderEnd(stream).value..got];
    body := r.value.GetBodyBytes();
  }

  /** `parse_request_auto_with_cap`, whichever way the cap sends it. */
  method AutoBody(stream: seq<Byte>, run: Run, options: Options, arenaCap: nat) returns (body: seq<Byte>)
    requires Arrives(stream, run, options)
    ensures body == StreamGiven(stream, run.schedule, options)
  {
    hide HeaderEnd, LengthOf, HeaderFill;
    var sock := Connect(stream, run, options);
    var r := ParseRequestAuto(sock, options, arenaCap);
    match r.value {
      case InArena(arena) =>
        FillHolds(stream, run, options, true);
        ghost var got := Got(stream, HeaderFill(stream, run.schedule, 0, 0, options, true));
        assert stream[..got][HeaderEnd(stream).value..] == stream[HeaderEnd(stream).value..got];
        body := arena.GetBodyBytes();
      case Streaming(headerBytes, b) =>
        FreshBodyRest(b, stream, headerBytes, run, options);
        var all := b.Bytes(None);
        body := all.value;
    }
  }

  /** Four different runs of the network over one request give the same body by all four ways. */
  method PathsAgree(stream: seq<Byte>, runs: (Run, Run, Run, Run), options: Options, arenaCap: nat)
    returns (buffered: seq<Byte>, streamed: seq<Byte>, inArena: seq<Byte>, auto: seq<Byte>)
    requires OneRequest(stream)
    requires Arrives(stream, runs.0, options) && Arrives(stream, runs.1, options)
    requires Arrives(stream, runs.2, options) && Arrives(stream, runs.3, options)
    ensures buffered == streamed == inArena == auto == BodyOf(stream)
  {
    hide HeaderEnd, LengthOf, Given, Steady, RequestEnd;
    buffered := BufferedBody(stream, runs.0, options);
    streamed := StreamedBody(stream, runs.1, options);
    inArena := ArenaDirectBody(stream, runs.2, options);
    auto := AutoBody(stream, runs.3, options, arenaCap);
    GivenIsBody(stream, runs.0.schedule, options, true);
    GivenIsBody(stream, runs.1.schedule, options, true);
    GivenIsBody(stream, runs.2.schedule, options, false);
    GivenIsBody(stream, runs.3.schedule, options, true);
  }

  /** Where a header read may reach past the request, two runs of the buffered reader differ. */
  method TwoBodies(stream: seq<Byte>, options: Options, p: nat) returns (drip: seq<Byte>, gulp: seq<Byte>)
    requires HeaderEnd(stream).Some? && HeaderEnd(stream).value <= MAX_HEADER_SIZE
    requires Accepts(stream, options) && options.readMaxRetry > 0
    requires Overreads(stream, options, true, p)
    ensures drip != gulp
  {
    hide HeaderEnd, LengthOf, Given, Overreads;
    SlicingShows(stream, options, true, p);
    var still: nat -> nat := _ => 0;
    drip := BufferedBody(stream, Run(Drip(HeaderEnd(stream).value - 1, 1), still), options);
    gulp := BufferedBody(stream, Run(Drip(p, |stream|), still), options);
  }
}
