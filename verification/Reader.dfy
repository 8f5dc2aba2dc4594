/**
 Reading one request from a socket. The header loop rescans only the last three old bytes and
 the new ones; the body loop grows its buffer by what may still arrive. The three readers share
 both loops, which the source writes out once for each of them.
 */
module Reader {
  import opened Bytes
  import opened Search
  import opened Network
  import opened ContentLengthHeader
  import opened Arena
  import MarkerSearch

  const MAX_HEADER_SIZE: nat := 64 * 1024
  const INITIAL_READ_SIZE: nat := 4096
  const BODY_READ_CHUNK: nat := 64 * 1024

  newtype U8 = x: int | 0 <= x < 256

  datatype Options = Options(
    readBufferSize: nat,
    readMaxRetry: U8,
    readTimeoutMs: nat,
    headerDeadlineMs: Option<nat>,
    maxBodySize: Option<nat>,
    overflowChecks: bool,  // whether the build stops at an integer overflow or wraps
    avx2: bool,
    sse2: bool)
  {
    function Deadline(): nat {
      match headerDeadlineMs
      case Some(ms) => ms
      case None => readTimeoutMs * (readMaxRetry as nat + 1)
    }

    predicate Admits(length: nat) {
      maxBodySize.None? || length <= maxBodySize.value
    }
  }

  datatype ReadError =
    | DeadlineExceeded
    | Io
    | NoData
    | Incomplete
    | TooLarge
    | Overflow  // header end plus Content-Length exceeds usize, in a build that checks

  function DetermineNextReadSize(currentSize: nat): (n: nat)
    ensures 1024 <= n <= 8192
  {
    if currentSize <= 512 then 1024
    else if currentSize <= 4096 then 2048
    else if currentSize <= 16384 then 4096
    else 8192
  }

  /**
   The length the buffer is resized to for the next header read, when `p` bytes are there. `capped`
   is how the buffered and the streaming readers do it: the first read asks for the configured
   size, and the buffer stops at 64 KiB. The arena reader does neither.
   */
  function NextSize(options: Options, capped: bool, p: nat): (n: nat)
    requires p < MAX_HEADER_SIZE
    ensures p < n
    ensures if capped then n <= MAX_HEADER_SIZE else n <= p + 8192
  {
    var initialRead := if options.readBufferSize == 0 then INITIAL_READ_SIZE else options.readBufferSize;
    var chunk := if capped && p == 0 then initialRead else DetermineNextReadSize(p);
    if capped then Min(p + chunk, MAX_HEADER_SIZE) else p + chunk
  }

  /** The steps by which header reads grow: never smaller, and larger just behind 512, 4096 and 16384 bytes. */
  lemma ReadSizesGrow(a: nat, b: nat)
    requires a <= b
    ensures DetermineNextReadSize(a) <= DetermineNextReadSize(b)
    ensures DetermineNextReadSize(0) == DetermineNextReadSize(512) == 1024
    ensures DetermineNextReadSize(513) == DetermineNextReadSize(4096) == 2048
    ensures DetermineNextReadSize(4097) == DetermineNextReadSize(16384) == 4096
    ensures b >= 16385 ==> DetermineNextReadSize(b) == 8192
  {
  }

  /** The first capped read asks for the configured size, or 4 KiB; every other read for the size that fits. */
  lemma SizesOfReads(options: Options, p: nat)
    requires p < MAX_HEADER_SIZE
    ensures NextSize(options, true, 0)
         == Min(65536, if options.readBufferSize > 0 then options.readBufferSize else 4096)
    ensures p > 0 ==> NextSize(options, true, p) == Min(65536, p + DetermineNextReadSize(p))
    ensures NextSize(options, false, p) == p + DetermineNextReadSize(p)
  {
  }

  /** The time for the header: what is configured, or enough for every retry and one read more to time out. */
  lemma DeadlineIs(options: Options, ms: nat)
    ensures options.headerDeadlineMs == Some(ms) ==> options.Deadline() == ms
    ensures options.headerDeadlineMs == None
        ==> options.Deadline() == options.readTimeoutMs * options.readMaxRetry as nat + options.readTimeoutMs
  {
  }

  /** The request announces more than the configured limit. */
  ghost predicate TooLong(s: seq<Byte>, options: Options) {
    options.maxBodySize.Some? && LengthOf(s).Some? && LengthOf(s).value > options.maxBodySize.value
  }

  // ----- header

  /** Where the header block of a byte stream ends: just behind its first CR LF CR LF. */
  function HeaderEnd(s: seq<Byte>): (r: Option<nat>)
    ensures r.Some? ==> 4 <= r.value <= |s|
  {
    match Find(s, HEADER_END)
    case Some(p) => Some(p + 4)
    case None => None
  }

  /** CR LF CR LF, byte by byte. */
  predicate EmptyLineAt(s: seq<Byte>, j: int) {
    0 <= j && j + 4 <= |s| && s[j] == 13 && s[j + 1] == 10 && s[j + 2] == 13 && s[j + 3] == 10
  }

  lemma EmptyLineOccurs(s: seq<Byte>, j: int)
    ensures OccursAt(s, HEADER_END, j) <==> EmptyLineAt(s, j)
  {
    if 0 <= j && j + 4 <= |s| {
      var m := s[j..j + 4];
      assert m[0] == s[j] && m[1] == s[j + 1] && m[2] == s[j + 2] && m[3] == s[j + 3];
      assert m == HEADER_END <==> m[0] == 13 && m[1] == 10 && m[2] == 13 && m[3] == 10;
    }
  }

  /** The header ends just behind its first CR LF CR LF, and has no end without one. */
  lemma HeaderEndMeans(s: seq<Byte>, e: nat)
    ensures HeaderEnd(s) == Some(e)
       <==> EmptyLineAt(s, e - 4) && forall j :: 0 <= j < e - 4 ==> !EmptyLineAt(s, j)
    ensures HeaderEnd(s) == None <==> forall j :: !EmptyLineAt(s, j)
  {
    hide FindFrom, EmptyLineAt, OccursAt;
    FindLeast(s, HEADER_END, 0);
    forall j ensures OccursAt(s, HEADER_END, j) <==> EmptyLineAt(s, j) {
      EmptyLineOccurs(s, j);
    }
    forall j ensures EmptyLineAt(s, j) ==> 0 <= j <= |s| - 4 {
      EmptyLineInside(s, j);
    }
    assert HeaderEnd(s).Some? ==> EmptyLineAt(s, HeaderEnd(s).value - 4);
  }

  lemma EmptyLineInside(s: seq<Byte>, j: int)
    ensures EmptyLineAt(s, j) ==> 0 <= j <= |s| - 4
  {
  }

  datatype HeaderScan = HeaderScan(
    buffer: seq<Byte>, headerEnd: Option<nat>, contentLength: Option<nat>, retryCount: U8)

  /** No marker in the old bytes: looking from three bytes before the new ones finds the first. */
  lemma RescanThree(a: seq<Byte>, b: seq<Byte>)
    requires Find(a, HEADER_END).None?
    ensures var from := if |a| < 3 then 0 else |a| - 3;
            Find(a + b, HEADER_END) == match Find((a + b)[from..], HEADER_END) {
              case Some(p) => Some(from + p)
              case None => None
            }
  {
    var s := a + b;
    var from := if |a| < 3 then 0 else |a| - 3;
    FindInSuffix(s, HEADER_END, from);
    FindLeast(a, HEADER_END, 0);
    forall j | 0 <= j < from ensures !OccursAt(s, HEADER_END, j) {
      OccursInPrefix(a, b, HEADER_END, j);
    }
    FindSkip(s, HEADER_END, 0, from);
  }

  lemma RescanBuffer(buffer: seq<Byte>, n: nat)
    requires n <= |buffer| && HeaderEnd(buffer[..n]).None?
    ensures var from := if n < 3 then 0 else n - 3;
            HeaderEnd(buffer) == match Find(buffer[from..], HEADER_END) {
              case Some(p) => Some(from + p + 4)
              case None => None
            }
  {
    hide FindFrom;
    RescanThree(buffer[..n], buffer[n..]);
    assert buffer[..n] + buffer[n..] == buffer;
  }

  /** The bytes a socket has handed out since position `start`. */
  function Taken(sock: Socket, start: nat): (taken: seq<Byte>)
    requires start <= sock.pos <= |sock.stream|
    reads sock
    ensures |taken| == sock.pos - start
  {
    sock.stream[start..sock.pos]
  }

  /** Everything the peer sends from position `start` on. */
  function Remaining(sock: Socket, start: nat): seq<Byte>
    requires start <= |sock.stream|
  {
    sock.stream[start..]
  }

  /** A read into `buffer[at..]`. */
  function Overwrite(buffer: seq<Byte>, at: nat, data: seq<Byte>): (r: seq<Byte>)
    requires at + |data| <= |buffer|
    ensures |r| == |buffer|
    ensures r[..at + |data|] == buffer[..at] + data
  {
    buffer[..at] + data + buffer[at + |data|..]
  }

  function LengthOf(taken: seq<Byte>): Option<nat> {
    match HeaderEnd(taken)
    case Some(e) => ContentLength(taken[..e])
    case None => None
  }

  /** A scan describes exactly the bytes taken. */
  predicate ScanOf(scan: HeaderScan, taken: seq<Byte>) {
    scan.buffer == taken && scan.headerEnd == HeaderEnd(taken) && scan.contentLength == LengthOf(taken)
  }

  /** How many bytes a header loop has taken when it ends, if only data and end of file arrive. */
  function HeaderFill(s: seq<Byte>, schedule: nat -> Event, t: nat, p: nat, options: Options, capped: bool): (n: nat)
    requires p <= |s|
    ensures p <= n <= |s|
    decreases |s| - p
  {
    if HeaderEnd(s[..p]).Some? || p >= MAX_HEADER_SIZE || p == |s| || !schedule(t).Deliver? then p
    else
      var k := Amount(schedule(t).n, NextSize(options, capped, p) - p, |s| - p);
      HeaderFill(s, schedule, t + 1, p + k, options, capped)
  }

  lemma FillStops(s: seq<Byte>, schedule: nat -> Event, t: nat, p: nat, options: Options, capped: bool)
    requires p <= |s|
    ensures HeaderEnd(s[..p]).Some? || p >= MAX_HEADER_SIZE || p == |s|
        ==> HeaderFill(s, schedule, t, p, options, capped) == p
  {
  }

  lemma FillStep(s: seq<Byte>, schedule: nat -> Event, t: nat, p: nat, options: Options, capped: bool)
    requires p < |s| && p < MAX_HEADER_SIZE && HeaderEnd(s[..p]).None? && schedule(t).Deliver?
    ensures var next := p + Amount(schedule(t).n, NextSize(options, capped, p) - p, |s| - p);
            HeaderFill(s, schedule, t, p, options, capped) == HeaderFill(s, schedule, t + 1, next, options, capped)
  {
    hide HeaderEnd, Amount, NextSize;
  }

  lemma MulStep(m: nat, n: nat, k: nat)
    requires k > 0
    ensures m * (n + k) >= m * n + m
  {
  }

  /** How one timed read of the header loop ended. */
  datatype Turn = Grew | Closed | Stalled | Blocked | Broken

  function TurnOf(event: Event, atEnd: bool): Turn {
    match event
    case Deliver(_) => if atEnd then Closed else Grew
    case Late => Stalled
    case Blocked => Turn.Blocked
    case Broken => Turn.Broken
  }

  /** Grow the buffer by `room`, read into the new part, and cut off what was not filled. */
  method ReadInto(sock: Socket, ghost p0: nat, buffer: seq<Byte>, room: nat)
    returns (turn: Turn, grown: seq<Byte>)
    requires sock.Valid() && p0 <= sock.pos && buffer == Taken(sock, p0) && room > 0
    modifies sock
    ensures sock.Valid() && p0 <= sock.pos && grown == Taken(sock, p0)
    ensures sock.ticks == old(sock.ticks) + 1
    ensures turn == TurnOf(sock.schedule(old(sock.ticks)), old(sock.pos) == |sock.stream|)
    ensures |buffer| <= |grown| <= |buffer| + room && grown[..|buffer|] == buffer
    ensures if turn.Grew? then |buffer| < |grown| else grown == buffer
    ensures turn.Grew?
        ==> (&& sock.schedule(old(sock.ticks)).Deliver?
             && |grown| == |buffer| + Amount(sock.schedule(old(sock.ticks)).n, room, |sock.stream| - old(sock.pos)))
  {
    var currentLen := |buffer|;
    grown := buffer + Zeros(room);
    var outcome := sock.Read(room);
    match outcome {
      case Data(bytes) =>
        turn := if bytes == [] then Closed else Grew;
        grown := Overwrite(grown, currentLen, bytes)[..currentLen + |bytes|];
      case WouldBlock => turn, grown := Turn.Blocked, grown[..currentLen];
      case TimedOut => turn, grown := Stalled, grown[..currentLen];
      case Failed => turn, grown := Turn.Broken, grown[..currentLen];
    }
  }

  /** Look for the marker in the new bytes and the three before them. */
  method SearchNew(buffer: seq<Byte>, currentLen: nat, options: Options) returns (end: Option<nat>)
    requires currentLen <= |buffer| && HeaderEnd(buffer[..currentLen]).None?
    ensures end == HeaderEnd(buffer)
  {
    hide Find, HeaderEnd;
    var searchStart := if currentLen < 3 then 0 else currentLen - 3;
    RescanBuffer(buffer, currentLen);
    var rel := MarkerSearch.FindHeaderEnd(buffer[searchStart..], options.avx2, options.sse2);
    return match rel case Some(p) => Some(searchStart + p + 4) case None => None;
  }

  /** Nothing came from the reads at the ticks from `lo` up to `hi`. */
  ghost predicate NothingCame(schedule: nat -> Event, lo: int, hi: nat) {
    forall t: nat :: lo <= t < hi ==> !schedule(t).Deliver?
  }

  /** How many reads at the ticks from `lo` up to `hi` timed out. */
  function Lates(schedule: nat -> Event, lo: nat, hi: nat): (n: nat)
    requires lo <= hi
    ensures n <= hi - lo
    decreases hi
  {
    if lo == hi then 0 else Lates(schedule, lo, hi - 1) + if schedule(hi - 1).Late? then 1 else 0
  }

  lemma {:induction false} SomeLate(schedule: nat -> Event, lo: nat, hi: nat) returns (t: nat)
    requires lo <= hi && Lates(schedule, lo, hi) > 0
    ensures lo <= t < hi && schedule(t).Late?
    decreases hi
  {
    if schedule(hi - 1).Late? {
      t := hi - 1;
    } else {
      t := SomeLate(schedule, lo, hi - 1);
    }
  }

  /** Since data last came, or since tick `t0`, exactly `retry` reads have timed out. */
  ghost predicate QuietFor(schedule: nat -> Event, t0: nat, now: nat, retry: nat) {
    exists lo: nat :: t0 <= lo <= now && NothingCame(schedule, lo, now) && Lates(schedule, lo, now) == retry
  }

  lemma QuietTurn(schedule: nat -> Event, t0: nat, now: nat, retry: nat)
    requires t0 <= now
    ensures QuietFor(schedule, t0, now, 0) || t0 < now
    ensures QuietFor(schedule, t0, now + 1, 0) || !schedule(now).Deliver?
    ensures QuietFor(schedule, t0, now, retry) && schedule(now).Late? ==> QuietFor(schedule, t0, now + 1, retry + 1)
    ensures QuietFor(schedule, t0, now, retry) && schedule(now).Blocked? ==> QuietFor(schedule, t0, now + 1, retry)
  {
    assert NothingCame(schedule, now, now) && Lates(schedule, now, now) == 0;
    assert NothingCame(schedule, now + 1, now + 1) && Lates(schedule, now + 1, now + 1) == 0;
    if QuietFor(schedule, t0, now, retry) && !schedule(now).Deliver? {
      var lo: nat :| t0 <= lo <= now && NothingCame(schedule, lo, now) && Lates(schedule, lo, now) == retry;
      assert NothingCame(schedule, lo, now + 1);
      assert Lates(schedule, lo, now + 1) == retry + if schedule(now).Late? then 1 else 0;
    }
  }

  /** The reads of a header loop so far: `retry` timeouts since data came, and how many reads there may have been. */
  ghost predicate Budget(schedule: nat -> Event, t0: nat, now: nat, received: nat, retry: nat, maxRetry: nat) {
    && t0 <= now && QuietFor(schedule, t0, now, retry)
    && ((forall t :: t0 <= t < now ==> !schedule(t).Blocked?) ==> now - t0 <= maxRetry * received + retry)
    && ((forall t :: t0 <= t ==> schedule(t).Deliver?) ==> retry == 0 && now - t0 <= received)
  }

  /** What is left of that once the loop has ended. */
  ghost predicate Spent(schedule: nat -> Event, t0: nat, now: nat, received: nat, retry: nat, maxRetry: nat) {
    && ((forall t :: t0 <= t < now ==> !schedule(t).Blocked?) ==> now - t0 <= maxRetry * received + maxRetry)
    && ((forall t :: t0 <= t ==> schedule(t).Deliver?) ==> retry == 0)
  }

  lemma BudgetTurn(schedule: nat -> Event, t0: nat, now: nat, received: nat, retry: nat, maxRetry: nat, more: nat)
    requires Budget(schedule, t0, now, received, retry, maxRetry) && retry < maxRetry && received <= more
    ensures schedule(now).Deliver? && received < more ==> Budget(schedule, t0, now + 1, more, 0, maxRetry)
    ensures schedule(now).Late? && received == more ==> Budget(schedule, t0, now + 1, more, retry + 1, maxRetry)
    ensures schedule(now).Blocked? && received == more ==> Budget(schedule, t0, now + 1, more, retry, maxRetry)
    ensures Spent(schedule, t0, now + 1, more, retry, maxRetry)
  {
    hide QuietFor;
    QuietTurn(schedule, t0, now, retry);
    if received < more {
      MulStep(maxRetry, received, more - received);
    }
  }

  lemma BudgetSpent(schedule: nat -> Event, t0: nat, now: nat, received: nat, retry: nat, maxRetry: nat)
    requires Budget(schedule, t0, now, received, retry, maxRetry) && retry <= maxRetry
    ensures Spent(schedule, t0, now, received, retry, maxRetry)
  {
  }

  lemma SpentMeans(sock: Socket, t0: nat, received: nat, retry: nat, maxRetry: nat)
    requires Spent(sock.schedule, t0, sock.ticks, received, retry, maxRetry)
    ensures ReadsBounded(sock, t0, received, maxRetry, maxRetry)
    ensures sock.DataOnly(t0) ==> retry == 0
  {
  }

  lemma BudgetMeans(sock: Socket, p0: nat, t0: nat, received: nat, retry: nat, options: Options)
    requires Budget(sock.schedule, t0, sock.ticks, received, retry, options.readMaxRetry as nat)
    requires p0 + received <= |sock.stream|
    ensures QuietFor(sock.schedule, t0, sock.ticks, retry)
    ensures sock.DataOnly(t0) && sock.InTime(t0, |sock.stream| - p0, options.Deadline())
        ==> sock.Elapsed(t0, sock.ticks) <= options.Deadline()
  {
  }

  /** No header loop is still going at tick `last`. */
  ghost predicate Last(sock: Socket, t0: nat, options: Options, last: nat) {
    || sock.Overdue(t0, options.Deadline(), last)
    || (sock.BlocksNever(t0) && last == t0 + options.readMaxRetry as nat * (MAX_HEADER_SIZE + 1) + 1)
  }

  lemma LastExists(sock: Socket, t0: nat, options: Options) returns (last: nat)
    requires sock.Ending(t0, options.Deadline())
    ensures Last(sock, t0, options, last)
  {
    if sock.Passes(t0, options.Deadline()) {
      last :| sock.Overdue(t0, options.Deadline(), last);
    } else {
      last := t0 + options.readMaxRetry as nat * (MAX_HEADER_SIZE + 1) + 1;
    }
  }

  /** By the clock when time passes, and by the number of reads when none of them blocks. */
  lemma BeforeLast(sock: Socket, t0: nat, received: nat, retry: nat, options: Options, last: nat)
    requires Last(sock, t0, options, last) && t0 <= sock.ticks
    requires Budget(sock.schedule, t0, sock.ticks, received, retry, options.readMaxRetry as nat)
    requires received < MAX_HEADER_SIZE && retry <= options.readMaxRetry as nat
    requires sock.Elapsed(t0, sock.ticks) <= options.Deadline()
    ensures sock.ticks < last
  {
    if sock.BlocksNever(t0) {
      ReadBudget(options.readMaxRetry as nat, received, MAX_HEADER_SIZE);
    }
  }

  /** Nothing came from the last `n` reads. */
  ghost predicate LastReadsFailed(sock: Socket, n: int)
    reads sock
  {
    NothingCame(sock.schedule, sock.ticks - n, sock.ticks)
  }

  /** Why a header loop ends without a header: end of file, a full buffer, or as many timeouts as allowed. */
  ghost predicate GivesUp(sock: Socket, p0: nat, t0: nat, options: Options, retryCount: U8)
    reads sock
  {
    || sock.pos == |sock.stream|
    || sock.pos - p0 >= MAX_HEADER_SIZE
    || (retryCount == options.readMaxRetry
        && QuietFor(sock.schedule, t0, sock.ticks, options.readMaxRetry as nat))
  }

  /** Why a header loop fails: the deadline has passed, or the last read reported an error. */
  ghost predicate HeaderFails(sock: Socket, t0: nat, options: Options, e: ReadError)
    reads sock
  {
    || (e == DeadlineExceeded && sock.Elapsed(t0, sock.ticks) > options.Deadline())
    || (e == Io && t0 < sock.ticks && sock.schedule(sock.ticks - 1) == Event.Broken)
  }

  /** Every read of a header loop was started before its deadline. */
  ghost predicate StartedInTime(sock: Socket, t0: nat, options: Options)
    reads sock
  {
    forall t: nat :: t0 <= t < sock.ticks ==> sock.Elapsed(t0, t) <= options.Deadline()
  }

  /** At most `maxRetry` reads for each byte received and once more, if none of them blocks. */
  ghost predicate ReadsBounded(sock: Socket, t0: nat, received: nat, retry: nat, maxRetry: nat)
    reads sock
  {
    sock.NeverBlocks(t0, sock.ticks) ==> sock.ticks - t0 <= maxRetry * received + retry
  }

  /** The longest the buffer was, against what is in it. */
  predicate PeakWithin(peak: nat, received: nat, capped: bool) {
    && received <= peak <= received + MAX_HEADER_SIZE
    && if capped then peak <= MAX_HEADER_SIZE else peak <= received + 8192 && peak < MAX_HEADER_SIZE + 8192
  }

  /** What a header loop that began at tick `t0` has taken is on its way to what `HeaderFill` says. */
  ghost predicate Filling(s: seq<Byte>, schedule: nat -> Event, t0: nat, now: nat, received: nat, options: Options,
                          capped: bool)
    requires received <= |s|
  {
    (forall t :: t0 <= t ==> schedule(t).Deliver?)
    ==> HeaderFill(s, schedule, t0, 0, options, capped) == HeaderFill(s, schedule, now, received, options, capped)
  }

  /** One turn of the header loop: choose a size, read, and look for the end of the header. */
  method HeaderTurn(sock: Socket, ghost p0: nat, ghost t0: nat, buffer: seq<Byte>, retryCount: U8, options: Options,
                    capped: bool, ghost before: nat)
    returns (turn: Turn, grown: seq<Byte>, headerEnd: Option<nat>, contentLength: Option<nat>, ghost peak: nat)
    requires sock.Valid() && p0 <= sock.pos && t0 <= sock.ticks && buffer == Taken(sock, p0)
    requires HeaderEnd(buffer).None? && |buffer| < MAX_HEADER_SIZE && retryCount < options.readMaxRetry
    requires Budget(sock.schedule, t0, sock.ticks, |buffer|, retryCount as nat, options.readMaxRetry as nat)
    requires PeakWithin(before, |buffer|, capped)
    requires |buffer| <= |Remaining(sock, p0)|
    requires Filling(Remaining(sock, p0), sock.schedule, t0, sock.ticks, |buffer|, options, capped)
    modifies sock
    ensures sock.Valid() && p0 <= sock.pos && sock.ticks == old(sock.ticks) + 1 && grown == Taken(sock, p0)
    ensures headerEnd == HeaderEnd(grown) && contentLength == LengthOf(grown)
    ensures before <= peak && PeakWithin(peak, |grown|, capped)
    ensures |grown| <= |Remaining(sock, p0)|
    ensures Filling(Remaining(sock, p0), sock.schedule, t0, sock.ticks, |grown|, options, capped)
    ensures turn.Closed? ==> sock.pos == |sock.stream|
    ensures turn.Broken? ==> sock.schedule(old(sock.ticks)) == Event.Broken
    ensures !turn.Grew? ==> headerEnd.None?
    ensures turn.Grew? || turn.Stalled? || turn.Blocked?
        ==> Budget(sock.schedule, t0, sock.ticks, |grown|, RetriesAfter(turn, retryCount) as nat,
                   options.readMaxRetry as nat)
    ensures Spent(sock.schedule, t0, sock.ticks, |grown|, retryCount as nat, options.readMaxRetry as nat)
  {
    hide HeaderEnd, ContentLength, Budget, Spent, HeaderFill, NextSize;
    var currentLen := |buffer|;
    var newSize := NextSize(options, capped, currentLen);
    peak := Max(before, newSize);
    TakenIsPrefix(sock, p0, buffer);
    turn, grown := ReadInto(sock, p0, buffer, newSize - currentLen);
    if turn.Grew? {
      FillStep(Remaining(sock, p0), sock.schedule, old(sock.ticks), currentLen, options, capped);
    } else if turn.Closed? {
      FillStops(Remaining(sock, p0), sock.schedule, old(sock.ticks), currentLen, options, capped);
      FillStops(Remaining(sock, p0), sock.schedule, sock.ticks, currentLen, options, capped);
    }
    BudgetTurn(sock.schedule, t0, old(sock.ticks), currentLen, retryCount as nat, options.readMaxRetry as nat, |grown|);
    headerEnd, contentLength := None, None;
    if turn.Grew? {
      headerEnd := SearchNew(grown, currentLen, options);
      if headerEnd.Some? {
        contentLength := ExtractContentLength(grown[..headerEnd.value]);
      }
    }
  }

  /** The retry counter after a turn that lets the loop go on. */
  function RetriesAfter(turn: Turn, retryCount: U8): U8
    requires retryCount < 255
  {
    if turn.Grew? then 0 else if turn.Stalled? then retryCount + 1 else retryCount
  }

  /** The header loop. `peak` is the longest the buffer ever was. */
  method ScanHeader(sock: Socket, options: Options, capped: bool)
    returns (r: Result<HeaderScan, ReadError>, ghost peak: nat)
    requires sock.Valid() && sock.Ending(sock.ticks, options.Deadline())
    modifies sock
    ensures sock.Valid() && old(sock.pos) <= sock.pos && old(sock.ticks) <= sock.ticks
    ensures r.Err? ==> HeaderFails(sock, old(sock.ticks), options, r.error)
    ensures StartedInTime(sock, old(sock.ticks), options)
    ensures r.Ok? ==> ScanOf(r.value, Taken(sock, old(sock.pos))) && r.value.retryCount <= options.readMaxRetry
    ensures r.Ok? && r.value.headerEnd.Some? ==> r.value.retryCount < options.readMaxRetry
    ensures r.Ok? && r.value.headerEnd.None?
        ==> GivesUp(sock, old(sock.pos), old(sock.ticks), options, r.value.retryCount)
    ensures PeakWithin(peak, sock.pos - old(sock.pos), capped)
    ensures sock.DataOnly(old(sock.ticks))
         && sock.InTime(old(sock.ticks), |sock.stream| - old(sock.pos), options.Deadline())
        ==> (&& r.Ok? && r.value.retryCount == 0
             && (options.readMaxRetry > 0
                 ==> sock.pos - old(sock.pos)
                     == HeaderFill(Remaining(sock, old(sock.pos)), sock.schedule, old(sock.ticks), 0, options, capped)))
    ensures ReadsBounded(sock, old(sock.ticks), sock.pos - old(sock.pos), options.readMaxRetry as nat,
                         options.readMaxRetry as nat)
  {
    hide HeaderEnd, LengthOf, Taken, Budget, Spent, QuietFor, ReadsBounded;
    hide HeaderFill, Last, PeakWithin, Filling;
    ghost var p0, t0 := sock.pos, sock.ticks;
    ghost var last := LastExists(sock, t0, options);
    var maxRetry := options.readMaxRetry;
    var buffer: seq<Byte> := [];
    var contentLength: Option<nat> := None;
    var headerEndPos: Option<nat> := None;
    var retryCount: U8 := 0;
    var headerStart := sock.ticks;
    ghost var broke := false;
    peak := 0;
    EmptyHasNoEnd();
    LoopStarts(Remaining(sock, p0), sock.schedule, t0, options, capped);

    while headerEndPos.None? && |buffer| < MAX_HEADER_SIZE && retryCount < maxRetry
      invariant sock.Valid() && p0 <= sock.pos && t0 <= sock.ticks
      invariant buffer == Taken(sock, p0) && |buffer| <= |Remaining(sock, p0)|
      invariant headerEndPos == HeaderEnd(buffer) == None && contentLength == LengthOf(buffer)
      invariant retryCount <= maxRetry
      invariant StartedInTime(sock, t0, options)
      invariant PeakWithin(peak, |buffer|, capped)
      invariant Filling(Remaining(sock, p0), sock.schedule, t0, sock.ticks, |buffer|, options, capped)
      invariant !broke && Budget(sock.schedule, t0, sock.ticks, |buffer|, retryCount as nat, maxRetry as nat)
      decreases last - sock.ticks
    {
      BudgetMeans(sock, p0, t0, |buffer|, retryCount as nat, options);
      if sock.Elapsed(headerStart, sock.ticks) > options.Deadline() {
        BudgetSpent(sock.schedule, t0, sock.ticks, |buffer|, retryCount as nat, maxRetry as nat);
        SpentMeans(sock, t0, |buffer|, retryCount as nat, maxRetry as nat);
        return Err(DeadlineExceeded), peak;
      }
      BeforeLast(sock, t0, |buffer|, retryCount as nat, options, last);
      var turn;
      turn, buffer, headerEndPos, contentLength, peak :=
        HeaderTurn(sock, p0, t0, buffer, retryCount, options, capped, peak);
      broke := true;
      match turn {
        case Grew =>
          if headerEndPos.Some? {
            break;
          }
          retryCount, broke := 0, false;
        case Closed => break;
        case Blocked => broke := false;
        case Broken =>
          SpentMeans(sock, t0, |buffer|, retryCount as nat, maxRetry as nat);
          return Err(Io), peak;
        case Stalled => retryCount, broke := retryCount + 1, false;
      }
    }
    if !broke {
      BudgetMeans(sock, p0, t0, |buffer|, retryCount as nat, options);
      BudgetSpent(sock.schedule, t0, sock.ticks, |buffer|, retryCount as nat, maxRetry as nat);
    }
    SpentMeans(sock, t0, |buffer|, retryCount as nat, maxRetry as nat);
    FillEnds(sock, p0, t0, buffer, options, capped);
    return Ok(HeaderScan(buffer, headerEndPos, contentLength, retryCount)), peak;
  }

  lemma LoopStarts(s: seq<Byte>, schedule: nat -> Event, t0: nat, options: Options, capped: bool)
    ensures Budget(schedule, t0, t0, 0, 0, options.readMaxRetry as nat)
    ensures PeakWithin(0, 0, capped) && Filling(s, schedule, t0, t0, 0, options, capped)
  {
    hide HeaderFill, QuietFor;
    QuietTurn(schedule, t0, t0, 0);
  }

  /** Where a loop ends, it has taken what `HeaderFill` says. */
  lemma FillEnds(sock: Socket, p0: nat, t0: nat, buffer: seq<Byte>, options: Options, capped: bool)
    requires p0 <= sock.pos <= |sock.stream| && buffer == Taken(sock, p0) && |buffer| <= |Remaining(sock, p0)|
    requires Filling(Remaining(sock, p0), sock.schedule, t0, sock.ticks, |buffer|, options, capped)
    ensures sock.DataOnly(t0) && (HeaderEnd(buffer).Some? || |buffer| >= MAX_HEADER_SIZE || sock.pos == |sock.stream|)
        ==> |buffer| == HeaderFill(Remaining(sock, p0), sock.schedule, t0, 0, options, capped)
  {
    hide HeaderEnd, HeaderFill;
    TakenIsPrefix(sock, p0, buffer);
    FillStops(Remaining(sock, p0), sock.schedule, sock.ticks, |buffer|, options, capped);
  }

  lemma TakenIsPrefix(sock: Socket, p0: nat, buffer: seq<Byte>)
    requires p0 <= sock.pos <= |sock.stream| && buffer == Taken(sock, p0)
    ensures |buffer| <= |Remaining(sock, p0)| && Remaining(sock, p0)[..|buffer|] == buffer
  {
  }

  lemma EmptyHasNoEnd()
    ensures HeaderEnd([]) == None && LengthOf([]) == None
  {
  }

  // ----- body

  /** One timed read of the body loop, into `buffer[filled..filled + room]`. */
  method ReadBody(sock: Socket, ghost p0: nat, ghost start: seq<Byte>, buffer: seq<Byte>, filled: nat, room: nat)
    returns (n: Option<nat>, grown: seq<Byte>)
    requires sock.Valid() && p0 <= sock.pos && room > 0
    requires filled <= |buffer| && buffer[..filled] == start + Taken(sock, p0)
    modifies sock
    ensures sock.Valid() && p0 <= sock.pos && sock.ticks == old(sock.ticks) + 1
    ensures |grown| == Max(|buffer|, filled + room)
    ensures n.Some? <==> sock.schedule(old(sock.ticks)).Deliver?
    ensures n.Some? ==> n.value <= room && grown[..filled + n.value] == start + Taken(sock, p0)
    ensures n == Some(0) ==> sock.pos == |sock.stream|
    ensures n.None? ==> grown[..filled] == start + Taken(sock, p0)
  {
    grown := if |buffer| < filled + room then buffer + Zeros(filled + room - |buffer|) else buffer;
    assert grown[..filled] == buffer[..filled];
    ghost var before := Taken(sock, p0);
    var outcome := sock.Read(room);
    match outcome {
      case Data(bytes) =>
        n := Some(|bytes|);
        grown := Overwrite(grown, filled, bytes);
        assert Taken(sock, p0) == before + bytes;
        Assoc(start, before, bytes);
      case _ => n := None;
    }
  }

  /**
   The body loop: read until `expected` bytes are there, the peer closes, or reads keep failing.
   `peak` is the longest the buffer ever was.
   */
  method CollectBody(sock: Socket, start: seq<Byte>, expected: nat, retry: U8, maxRetry: U8, maxChunk: nat)
    returns (buffer: seq<Byte>, ghost peak: nat)
    requires sock.Valid() && retry <= maxRetry && maxChunk > 0
    modifies sock
    ensures sock.Valid() && old(sock.pos) <= sock.pos && old(sock.ticks) <= sock.ticks
    ensures buffer == start + Taken(sock, old(sock.pos))
    ensures |buffer| <= Max(|start|, expected)
    ensures |buffer| < expected && sock.pos < |sock.stream|
        ==> (&& LastReadsFailed(sock, (maxRetry - retry) as int)
             && sock.ticks - old(sock.ticks) >= (maxRetry - retry) as nat)
    ensures sock.ticks - old(sock.ticks) <= maxRetry as nat * (Max(0, expected - |start|) + 1)
    ensures peak <= |buffer| + maxChunk
  {
    hide Taken;
    ghost var p0, t0 := sock.pos, sock.ticks;
    var finalBuffer := start;
    var totalRead := |start|;
    var retryCount := retry;
    peak := |start|;
    assert finalBuffer[..totalRead] == start + Taken(sock, p0);
    while totalRead < expected && retryCount < maxRetry
      invariant sock.Valid() && p0 <= sock.pos && t0 <= sock.ticks
      invariant |start| <= totalRead <= |finalBuffer| <= totalRead + maxChunk
      invariant peak <= totalRead + maxChunk
      invariant finalBuffer[..totalRead] == start + Taken(sock, p0)
      invariant totalRead <= Max(|start|, expected)
      invariant retryCount <= maxRetry
      invariant LastReadsFailed(sock, retryCount as int - retry as int)
      invariant sock.ticks - t0 >= retryCount as int - retry as int
      invariant sock.ticks - t0 + retry as nat <= maxRetry as nat * (totalRead - |start|) + retryCount as nat
      decreases Max(0, expected - totalRead), maxRetry - retryCount
    {
      var remaining := expected - totalRead;
      var chunkSize := Min(remaining, maxChunk);
      var n, grown := ReadBody(sock, p0, start, finalBuffer, totalRead, chunkSize);
      finalBuffer := grown;
      peak := Max(peak, |finalBuffer|);
      if n == Some(0) {
        break;
      } else if n.Some? {
        MulStep(maxRetry as nat, totalRead - |start|, n.value);
        totalRead := totalRead + n.value;
        retryCount := 0;
      } else {
        retryCount := retryCount + 1;
      }
    }
    buffer := finalBuffer[..totalRead];
    ReadBudget(maxRetry as nat, totalRead - |start|, Max(0, expected - |start|));
  }

  lemma ReadBudget(maxRetry: nat, received: nat, missing: nat)
    requires received <= missing
    ensures maxRetry * received + maxRetry <= maxRetry * (missing + 1)
  {
  }

  // ----- the three readers

  function OrZero(length: Option<nat>): nat {
    match length
    case Some(n) => n
    case None => 0
  }

  /** Where the first request on a byte stream ends, as its header says. */
  function RequestEnd(s: seq<Byte>): nat
    requires HeaderEnd(s).Some?
  {
    HeaderEnd(s).value + OrZero(LengthOf(s))
  }

  /** The sum of header end and Content-Length as a build without overflow checks computes it. */
  function Wrapped(n: nat): nat {
    n % (USIZE_MAX + 1)
  }

  lemma WrapsBelowHeader(s: seq<Byte>)
    requires HeaderEnd(s).Some? && HeaderEnd(s).value <= USIZE_MAX
    ensures RequestEnd(s) <= USIZE_MAX ==> Wrapped(RequestEnd(s)) == RequestEnd(s)
    ensures RequestEnd(s) > USIZE_MAX ==> Wrapped(RequestEnd(s)) < HeaderEnd(s).value
  {
    hide HeaderEnd, Decimal, FieldStart;
  }

  /** A header found in the bytes taken so far is the header of the whole stream. */
  lemma HeaderOfPrefix(s: seq<Byte>, n: nat)
    requires n <= |s|
    ensures HeaderEnd(s[..n]).Some? ==> HeaderEnd(s) == HeaderEnd(s[..n]) && LengthOf(s) == LengthOf(s[..n])
    ensures HeaderEnd(s).Some? && HeaderEnd(s).value <= n ==> HeaderEnd(s[..n]) == HeaderEnd(s)
  {
    hide ContentLength;
    assert s[..n] + s[n..] == s;
    if HeaderEnd(s[..n]).Some? {
      FindInPrefix(s[..n], s[n..], HEADER_END);
      assert s[..HeaderEnd(s).value] == s[..n][..HeaderEnd(s).value];
    } else if HeaderEnd(s).Some? && HeaderEnd(s).value <= n {
      OccursInPrefix(s[..n], s[n..], HEADER_END, HeaderEnd(s).value - 4);
      FindLeast(s[..n], HEADER_END, 0);
    }
  }

  /** The first 64 KiB hold a whole header, and nothing keeps the reader from getting it. */
  ghost predicate Prompt(sock: Socket, p0: nat, t0: nat, options: Options)
    requires p0 <= |sock.stream|
  {
    && sock.DataOnly(t0)
    && sock.InTime(t0, |sock.stream| - p0, options.Deadline())
    && options.readMaxRetry > 0
    && HeaderEnd(Remaining(sock, p0)).Some?
    && HeaderEnd(Remaining(sock, p0)).value <= MAX_HEADER_SIZE
  }

  datatype HeaderRead = HeaderRead(headerBytes: seq<Byte>, leftover: seq<Byte>, contentLength: Option<nat>)

  /** What a scan says about the stream it read from, however the reads sliced it. */
  lemma ScanMeansStream(sock: Socket, p0: nat, t0: nat, scan: HeaderScan, options: Options)
    requires p0 <= sock.pos <= |sock.stream| && ScanOf(scan, Taken(sock, p0))
    ensures scan.headerEnd.Some?
        ==> (&& HeaderEnd(Remaining(sock, p0)) == scan.headerEnd
             && LengthOf(Remaining(sock, p0)) == scan.contentLength)
    ensures scan.headerEnd.None? ==> scan.contentLength.None?
    ensures Prompt(sock, p0, t0, options) && scan.retryCount == 0
         && (scan.headerEnd.None? ==> GivesUp(sock, p0, t0, options, scan.retryCount))
        ==> scan.headerEnd.Some?
  {
    hide HeaderEnd;
    var s, n := Remaining(sock, p0), sock.pos - p0;
    assert s[..n] == Taken(sock, p0);
    HeaderOfPrefix(s, n);
    assert n == |s| ==> s[..n] == s;
  }

  method ReadHeadersOnly(sock: Socket, options: Options) returns (r: Result<HeaderRead, ReadError>, ghost peak: nat)
    requires sock.Valid() && sock.Ending(sock.ticks, options.Deadline())
    modifies sock
    ensures sock.Valid() && old(sock.pos) <= sock.pos <= old(sock.pos) + MAX_HEADER_SIZE
    ensures old(sock.ticks) <= sock.ticks && peak <= MAX_HEADER_SIZE
    ensures var s := Remaining(sock, old(sock.pos));
            match r
            case Ok(h) =>
              && h.headerBytes + h.leftover == Taken(sock, old(sock.pos))
              && HeaderEnd(s) == Some(|h.headerBytes|)
              && h.contentLength == LengthOf(s)
              && !TooLong(s, options)
            case Err(TooLarge) => HeaderEnd(s).Some? && TooLong(s, options)
            case Err(NoData) =>
              sock.pos == old(sock.pos) && GivesUp(sock, old(sock.pos), old(sock.ticks), options, options.readMaxRetry)
            case Err(Incomplete) =>
              && HeaderEnd(Taken(sock, old(sock.pos))).None?
              && GivesUp(sock, old(sock.pos), old(sock.ticks), options, options.readMaxRetry)
            case Err(e) => HeaderFails(sock, old(sock.ticks), options, e)
    ensures Prompt(sock, old(sock.pos), old(sock.ticks), options)
        ==> (&& (r.Ok? <==> !TooLong(Remaining(sock, old(sock.pos)), options))
             && (r == Err(TooLarge) <==> TooLong(Remaining(sock, old(sock.pos)), options))
             && sock.pos - old(sock.pos)
                == HeaderFill(Remaining(sock, old(sock.pos)), sock.schedule, old(sock.ticks), 0, options, true))
    ensures ReadsBounded(sock, old(sock.ticks), sock.pos - old(sock.pos), options.readMaxRetry as nat,
                         options.readMaxRetry as nat)
  {
    hide HeaderEnd, ContentLength, HeaderFill, ReadsBounded;
    ghost var p0, t0 := sock.pos, sock.ticks;
    var scanned;
    scanned, peak := ScanHeader(sock, options, true);
    if scanned.Err? {
      return Err(scanned.error), peak;
    }
    var scan := scanned.value;
    ScanMeansStream(sock, p0, t0, scan, options);
    if scan.buffer == [] {
      return Err(NoData), peak;
    }
    if scan.headerEnd.None? {
      return Err(Incomplete), peak;
    }
    if scan.contentLength.Some? && !options.Admits(scan.contentLength.value) {
      return Err(TooLarge), peak;
    }
    var e := scan.headerEnd.value;
    return Ok(HeaderRead(scan.buffer[..e], scan.buffer[e..], scan.contentLength)), peak;
  }

  /** The streams whose header block lets the two buffering readers go on to the body. */
  ghost predicate Begins(s: seq<Byte>, options: Options) {
    && HeaderEnd(s).Some? && !TooLong(s, options)
    && (RequestEnd(s) <= USIZE_MAX || !options.overflowChecks)
  }

  /** The same without the question of overflow. */
  ghost predicate Accepts(s: seq<Byte>, options: Options) {
    HeaderEnd(s).Some? && !TooLong(s, options) && RequestEnd(s) <= USIZE_MAX
  }

  datatype Begun = Begun(buffer: seq<Byte>, headerEnd: nat, expected: nat, retryCount: U8)

  /** What was found: the header of the stream and the length it announces, or no header at all. */
  predicate BegunOn(b: Begun, taken: seq<Byte>, s: seq<Byte>) {
    && b.buffer == taken
    && b.headerEnd <= |taken| < MAX_HEADER_SIZE + 8192
    && if HeaderEnd(taken).Some?
       then HeaderEnd(taken) == HeaderEnd(s) == Some(b.headerEnd) && b.expected == Wrapped(RequestEnd(s))
       else b.headerEnd == b.expected == |taken|
  }

  /** Header, size limit and total length: what both buffering readers do before the body. */
  method BeginRequest(sock: Socket, options: Options, capped: bool)
    returns (r: Result<Begun, ReadError>, ghost peak: nat)
    requires sock.Valid() && sock.Ending(sock.ticks, options.Deadline())
    modifies sock
    ensures sock.Valid() && old(sock.pos) <= sock.pos && old(sock.ticks) <= sock.ticks
    ensures if capped then peak <= MAX_HEADER_SIZE else peak <= sock.pos - old(sock.pos) + 8192
    ensures var s := Remaining(sock, old(sock.pos));
            match r
            case Ok(b) =>
              && BegunOn(b, Taken(sock, old(sock.pos)), s)
              && (capped ==> |b.buffer| <= MAX_HEADER_SIZE && b.buffer != [])
              && b.retryCount <= options.readMaxRetry
              && (HeaderEnd(b.buffer).Some? ==> !TooLong(s, options) && b.retryCount < options.readMaxRetry)
            case Err(TooLarge) => HeaderEnd(s).Some? && TooLong(s, options)
            case Err(Overflow) => HeaderEnd(s).Some? && RequestEnd(s) > USIZE_MAX && options.overflowChecks
            case Err(NoData) => capped && sock.pos == old(sock.pos)
            case Err(e) => HeaderFails(sock, old(sock.ticks), options, e)
    ensures Prompt(sock, old(sock.pos), old(sock.ticks), options)
        ==> (&& (r.Ok? <==> Begins(Remaining(sock, old(sock.pos)), options))
             && (r.Ok? ==> HeaderEnd(r.value.buffer).Some? && r.value.retryCount == 0)
             && sock.pos - old(sock.pos)
                == HeaderFill(Remaining(sock, old(sock.pos)), sock.schedule, old(sock.ticks), 0, options, capped))
    ensures ReadsBounded(sock, old(sock.ticks), sock.pos - old(sock.pos), options.readMaxRetry as nat,
                         options.readMaxRetry as nat)
  {
    hide HeaderEnd, ContentLength, LengthOf, HeaderFill, Wrapped, ReadsBounded, GivesUp;
    ghost var p0, t0 := sock.pos, sock.ticks;
    var scanned;
    scanned, peak := ScanHeader(sock, options, capped);
    if scanned.Err? {
      return Err(scanned.error), peak;
    }
    var scan := scanned.value;
    ScanMeansStream(sock, p0, t0, scan, options);
    if capped && scan.buffer == [] {
      return Err(NoData), peak;
    }
    var headerEnd := match scan.headerEnd case Some(e) => e case None => |scan.buffer|;
    if scan.contentLength.Some? && !options.Admits(scan.contentLength.value) {
      return Err(TooLarge), peak;
    }
    var expected := headerEnd + OrZero(scan.contentLength);
    if expected > USIZE_MAX {
      if options.overflowChecks {
        return Err(Overflow), peak;
      }
      expected := Wrapped(expected);
    } else {
      WrapsNot(expected);
    }
    return Ok(Begun(scan.buffer, headerEnd, expected, scan.retryCount)), peak;
  }

  lemma WrapsNot(n: nat)
    requires n <= USIZE_MAX
    ensures Wrapped(n) == n
  {
  }

  /** How much of a stream a buffering reader has in the end, when its header loop took `n` bytes. */
  function Got(s: seq<Byte>, n: nat): (got: nat)
    requires HeaderEnd(s).Some? && n <= |s|
    ensures n <= got <= |s|
  {
    if RequestEnd(s) <= USIZE_MAX then Max(n, Min(RequestEnd(s), |s|)) else n
  }

  /** A body phase that only ever sees data ends with all of the request, or all the peer sent. */
  lemma BodyCompletes(sock: Socket, p0: nat, t1: nat, n: nat, total: nat, retry: U8, maxRetry: U8, expected: nat)
    requires p0 <= sock.pos <= |sock.stream| && total == sock.pos - p0 && n <= total <= Max(n, expected)
    requires sock.DataOnly(t1) && t1 <= sock.ticks && retry < maxRetry
    requires total < expected && sock.pos < |sock.stream|
        ==> (&& LastReadsFailed(sock, (maxRetry - retry) as int)
             && sock.ticks - t1 >= (maxRetry - retry) as nat)
    ensures total == Max(n, Min(expected, |sock.stream| - p0))
  {
    if sock.ticks > 0 {
      var t: nat := sock.ticks - 1;
      assert t1 <= t ==> sock.schedule(t).Deliver?;
    }
  }

  /** That is what `Got` says. */
  lemma GotIs(s: seq<Byte>, n: nat, total: nat)
    requires HeaderEnd(s).Some? && HeaderEnd(s).value <= n <= |s| && HeaderEnd(s).value <= USIZE_MAX
    requires total == Max(n, Min(Wrapped(RequestEnd(s)), |s|))
    ensures total == Got(s, n)
  {
    hide HeaderEnd, LengthOf, Wrapped;
    WrapsBelowHeader(s);
  }

  /** A body phase stops with the whole request, at the end of file, or after at least `n` failed reads in a row. */
  ghost predicate BodyStops(sock: Socket, bytes: seq<Byte>, s: seq<Byte>, n: U8)
    reads sock
  {
    && HeaderEnd(s).Some?
    && (|| Wrapped(RequestEnd(s)) <= |bytes| || sock.pos == |sock.stream|
        || (n as int <= sock.ticks && LastReadsFailed(sock, n as int)))
  }

  /** What the end of the body phase means, when the header loop had found its header. */
  lemma HowBodyStops(sock: Socket, p0: nat, t1: nat, bytes: seq<Byte>, b: Begun, s: seq<Byte>, retry: U8, n: U8,
                     options: Options)
    requires |b.buffer| <= |bytes| <= Max(|b.buffer|, b.expected) && BegunOn(b, bytes[..|b.buffer|], s)
    requires sock.Valid() && t1 <= sock.ticks
    requires HeaderEnd(b.buffer).Some? ==> !TooLong(s, options)
    requires HeaderEnd(b.buffer).Some? ==> n as int <= options.readMaxRetry as int - retry as int
    requires |bytes| < b.expected && sock.pos < |sock.stream|
        ==> (&& LastReadsFailed(sock, options.readMaxRetry as int - retry as int)
             && sock.ticks - t1 >= options.readMaxRetry as int - retry as int)
    ensures HeaderEnd(bytes).Some? ==> !TooLong(s, options) && BodyStops(sock, bytes, s, n)
  {
    hide HeaderEnd, LengthOf, RequestEnd, Wrapped, TooLong, LastReadsFailed;
    HeaderStays(bytes, |b.buffer|);
    if HeaderEnd(b.buffer).Some? && |bytes| < b.expected && sock.pos < |sock.stream| {
      FewerFailed(sock, options.readMaxRetry as int - retry as int, n as int);
    }
  }

  lemma FewerFailed(sock: Socket, m: int, n: int)
    requires LastReadsFailed(sock, m) && n <= m
    ensures LastReadsFailed(sock, n)
  {
  }

  /** What a buffering reader has taken when its header came promptly and its body loop has ended. */
  lemma PromptGets(sock: Socket, p0: nat, t0: nat, t1: nat, bytes: seq<Byte>, b: Begun, retry: U8, options: Options,
                   capped: bool)
    requires p0 <= sock.pos <= |sock.stream| && bytes == Taken(sock, p0) && Prompt(sock, p0, t0, options)
    requires t0 <= t1 <= sock.ticks && retry < options.readMaxRetry
    requires var s := Remaining(sock, p0);
             && |b.buffer| == HeaderFill(s, sock.schedule, t0, 0, options, capped)
             && HeaderEnd(s) == Some(b.headerEnd) && b.headerEnd <= |b.buffer| && b.expected == Wrapped(RequestEnd(s))
    requires |b.buffer| <= |bytes| <= Max(|b.buffer|, b.expected)
    requires |bytes| < b.expected && sock.pos < |sock.stream|
        ==> (&& LastReadsFailed(sock, (options.readMaxRetry - retry) as int)
             && sock.ticks - t1 >= (options.readMaxRetry - retry) as nat)
    ensures var s := Remaining(sock, p0);
            bytes == s[..Got(s, HeaderFill(s, sock.schedule, t0, 0, options, capped))]
  {
    hide HeaderEnd, LengthOf, RequestEnd, HeaderFill, Wrapped, Got, LastReadsFailed;
    BodyCompletes(sock, p0, t1, |b.buffer|, |bytes|, retry, options.readMaxRetry, b.expected);
    GotIs(Remaining(sock, p0), |b.buffer|, |bytes|);
    TakenIsPrefix(sock, p0, bytes);
  }

  /** At most `maxRetry` reads for each byte that may come, and twice more, if none of them blocks. */
  ghost predicate AllReadsBounded(sock: Socket, t0: nat, received: nat, s: seq<Byte>, maxRetry: nat)
    reads sock
  {
    sock.NeverBlocks(t0, sock.ticks)
    ==> sock.ticks - t0
        <= maxRetry * (Max(received, if HeaderEnd(s).Some? then Wrapped(RequestEnd(s)) else 0) + 2)
  }

  lemma TwoPhases(sock: Socket, t0: nat, t1: nat, b: nat, total: nat, expected: nat, s: seq<Byte>, maxRetry: nat)
    requires t0 <= t1 <= sock.ticks && b <= total
    requires sock.NeverBlocks(t0, t1) ==> t1 - t0 <= maxRetry * b + maxRetry
    requires sock.ticks - t1 <= maxRetry * (Max(0, expected - b) + 1)
    requires expected <= Max(total, if HeaderEnd(s).Some? then Wrapped(RequestEnd(s)) else 0)
    ensures AllReadsBounded(sock, t0, total, s, maxRetry)
  {
    hide HeaderEnd, RequestEnd, Wrapped;
    var most := Max(total, if HeaderEnd(s).Some? then Wrapped(RequestEnd(s)) else 0);
    MulMonotone(maxRetry, b + Max(0, expected - b), most);
    assert maxRetry * b + maxRetry + maxRetry * (Max(0, expected - b) + 1) == maxRetry * (b + Max(0, expected - b) + 2);
    assert maxRetry * (b + Max(0, expected - b) + 2) <= maxRetry * (most + 2);
  }

  lemma MulMonotone(m: nat, a: nat, b: nat)
    requires a <= b
    ensures m * (a + 2) <= m * (b + 2)
  {
    assert m * (b + 2) == m * (a + 2) + m * (b - a);
  }

  method GetBytesFromReader(sock: Socket, options: Options) returns (r: Result<seq<Byte>, ReadError>, ghost peak: nat)
    requires sock.Valid() && sock.Ending(sock.ticks, options.Deadline())
    modifies sock
    ensures sock.Valid() && old(sock.pos) <= sock.pos
    ensures peak <= sock.pos - old(sock.pos) + BODY_READ_CHUNK
    ensures AllReadsBounded(sock, old(sock.ticks), sock.pos - old(sock.pos), Remaining(sock, old(sock.pos)),
                            options.readMaxRetry as nat)
    ensures var s := Remaining(sock, old(sock.pos));
            match r
            case Ok(bytes) =>
              && bytes == Taken(sock, old(sock.pos)) && bytes != []
              && (HeaderEnd(bytes).Some? ==> !TooLong(s, options) && BodyStops(sock, bytes, s, 1))
            case Err(TooLarge) => HeaderEnd(s).Some? && TooLong(s, options)
            case Err(Overflow) => HeaderEnd(s).Some? && RequestEnd(s) > USIZE_MAX && options.overflowChecks
            case Err(NoData) => sock.pos == old(sock.pos)
            case Err(e) => HeaderFails(sock, old(sock.ticks), options, e)
    ensures Prompt(sock, old(sock.pos), old(sock.ticks), options)
        ==> var s := Remaining(sock, old(sock.pos));
            && (r.Ok? <==> Begins(s, options))
            && (r.Ok? ==> r.value == s[..Got(s, HeaderFill(s, sock.schedule, old(sock.ticks), 0, options, true))])
  {
    hide HeaderEnd, LengthOf, RequestEnd, Begins, HeaderFill, Wrapped, LastReadsFailed, Got, TooLong, BodyStops;
    ghost var p0, t0 := sock.pos, sock.ticks;
    var begun;
    begun, peak := BeginRequest(sock, options, true);
    if begun.Err? {
      ghost var n := sock.pos - p0;
      TwoPhases(sock, t0, sock.ticks, n, n, 0, Remaining(sock, p0), options.readMaxRetry as nat);
      return Err(begun.error), peak;
    }
    var b := begun.value;
    ghost var t1, n, bodyPeak := sock.ticks, |b.buffer|, 0;
    var bytes;
    bytes, bodyPeak := CollectBody(sock, b.buffer, b.expected, b.retryCount, options.readMaxRetry, BODY_READ_CHUNK);
    peak := Max(peak, bodyPeak);
    assert bytes == Taken(sock, p0);
    TwoPhases(sock, t0, t1, n, |bytes|, b.expected, Remaining(sock, p0), options.readMaxRetry as nat);
    assert bytes[..n] == b.buffer;
    HowBodyStops(sock, p0, t1, bytes, b, Remaining(sock, p0), b.retryCount, 1, options);
    if Prompt(sock, p0, t0, options) {
      PromptGets(sock, p0, t0, t1, bytes, b, b.retryCount, options, true);
    }
    return Ok(bytes), peak;
  }

  method GetBytesArenaDirect(sock: Socket, options: Options) returns (r: Result<ArenaBody, ReadError>, ghost peak: nat)
    requires sock.Valid() && sock.Ending(sock.ticks, options.Deadline())
    modifies sock
    ensures sock.Valid() && old(sock.pos) <= sock.pos
    ensures peak <= sock.pos - old(sock.pos)
                    + if options.readBufferSize == 0 then BODY_READ_CHUNK else Max(8192, options.readBufferSize)
    ensures AllReadsBounded(sock, old(sock.ticks), sock.pos - old(sock.pos), Remaining(sock, old(sock.pos)),
                            options.readMaxRetry as nat)
    ensures var s := Remaining(sock, old(sock.pos));
            match r
            case Ok(arena) =>
              && arena.Valid() && arena.data == Taken(sock, old(sock.pos))
              && arena.headerEnd == arena.bodyStart
              && (HeaderEnd(arena.data).Some?
                  ==> !TooLong(s, options) && BodyStops(sock, arena.data, s, options.readMaxRetry))
              && arena.headerEnd == (match HeaderEnd(arena.data) case Some(e) => e case None => |arena.data|)
            case Err(TooLarge) => HeaderEnd(s).Some? && TooLong(s, options)
            case Err(Overflow) => HeaderEnd(s).Some? && RequestEnd(s) > USIZE_MAX && options.overflowChecks
            case Err(e) => HeaderFails(sock, old(sock.ticks), options, e)
    ensures Prompt(sock, old(sock.pos), old(sock.ticks), options)
        ==> var s := Remaining(sock, old(sock.pos));
            var fill := HeaderFill(s, sock.schedule, old(sock.ticks), 0, options, false);
            && (r.Ok? <==> Begins(s, options))
            && (r.Ok? ==> HeaderEnd(s) == Some(r.value.headerEnd) && r.value.data == s[..Got(s, fill)])
  {
    hide HeaderEnd, LengthOf, RequestEnd, Begins, HeaderFill, Wrapped, LastReadsFailed, Got, TooLong, BodyStops;
    ghost var p0, t0 := sock.pos, sock.ticks;
    var begun;
    begun, peak := BeginRequest(sock, options, false);
    if begun.Err? {
      ghost var n := sock.pos - p0;
      TwoPhases(sock, t0, sock.ticks, n, n, 0, Remaining(sock, p0), options.readMaxRetry as nat);
      return Err(begun.error), peak;
    }
    var b := begun.value;
    var bodyChunk := if options.readBufferSize == 0 then BODY_READ_CHUNK else options.readBufferSize;
    ghost var p1, t1, n, bodyPeak := sock.pos, sock.ticks, |b.buffer|, 0;
    var bytes;
    bytes, bodyPeak := CollectBody(sock, b.buffer, b.expected, 0, options.readMaxRetry, bodyChunk);
    peak := Max(peak, bodyPeak);
    assert bytes == Taken(sock, p0);
    TwoPhases(sock, t0, t1, n, |bytes|, b.expected, Remaining(sock, p0), options.readMaxRetry as nat);
    if Prompt(sock, p0, t0, options) {
      PromptGets(sock, p0, t0, t1, bytes, b, 0, options, false);
    }
    HeaderStays(bytes, n);
    assert bytes[..n] == b.buffer;
    HowBodyStops(sock, p0, t1, bytes, b, Remaining(sock, p0), 0, options.readMaxRetry, options);
    return Ok(ArenaBody(bytes, b.headerEnd, b.headerEnd)), peak;
  }

  /** Reading on does not change a header already found. */
  lemma HeaderStays(bytes: seq<Byte>, n: nat)
    requires n <= |bytes|
    ensures HeaderEnd(bytes[..n]).Some? ==> HeaderEnd(bytes) == HeaderEnd(bytes[..n])
    ensures n == |bytes| ==> bytes[..n] == bytes
  {
    hide HeaderEnd, LengthOf;
    HeaderOfPrefix(bytes, n);
  }

  /** The rest of a body whose beginning came with the header. */
  method ReadRemainingBody(leftover: seq<Byte>, sock: Socket, contentLength: Option<nat>, options: Options)
    returns (body: seq<Byte>, ghost peak: nat)
    requires sock.Valid()
    modifies sock
    ensures sock.Valid() && old(sock.pos) <= sock.pos
    ensures body == leftover + Taken(sock, old(sock.pos))
    ensures |body| <= Max(|leftover|, OrZero(contentLength))
    ensures peak <= |body| + BODY_READ_CHUNK
    ensures sock.DataOnly(old(sock.ticks)) && options.readMaxRetry > 0
        ==> |body| >= OrZero(contentLength) || sock.pos == |sock.stream|
    ensures sock.ticks - old(sock.ticks)
         <= options.readMaxRetry as nat * (Max(0, OrZero(contentLength) - |leftover|) + 1)
  {
    ghost var t0 := sock.ticks;
    body, peak := CollectBody(sock, leftover, OrZero(contentLength), 0, options.readMaxRetry, BODY_READ_CHUNK);
    if sock.ticks > 0 {
      var t: nat := sock.ticks - 1;
      assert sock.DataOnly(t0) && t0 <= t ==> sock.schedule(t).Deliver?;
    }
  }
}
