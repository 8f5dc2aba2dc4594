# A verified model of atomic_http's byte-level core

atomic_http is an HTTP/1.x server library. This project models the parts of it whose correctness is an
argument rather than a glance: how a request is cut out of a byte stream however the network slices it,
how a multipart body is taken apart without copying and with copying, how the end of a header block is
found with vector instructions, how a list of buffers survives short writes, and two stateful components,
the file cache and the connection pool. The main results hold for all inputs, all schedules or all runs; where
the code keeps a promise only sometimes, the exact condition is proved, and an input or a run shows the rest.

* **Bytes, Search.** Byte strings; the least occurrence of a marker; the leftmost decomposition of a string
  at a marker, shown to be the only one.
* **MarkerSearch.** The AVX2, SSE2 and scalar searches for CR LF CR LF, block by block and mask bit by mask bit.
* **Split.** The two ways to cut a body at its delimiter and exactly when they agree.
* **ContentLength.** The hand-written Content-Length scan against a specification by lines
  (section 8.6 of RFC 9110), with the overflow check.
* **Network, Reader, Arena, Body, Slicing, Paths.** A socket is the bytes a peer sends, an arbitrary schedule of
  deliveries, timeouts and errors, and a clock. The header loop, the body loop, the three readers, the
  streaming body and the length-based choice between them. What each hands on is given as a function of the
  schedule; it is the same body for all of them when no byte follows the request, and exactly when it depends
  on the slicing otherwise is proved as well (framing as in sections 2.1 and 6.3 of RFC 9112).
* **VectoredSend.** The loop that rebuilds its buffer list after every short write.
* **FileCache.** Loads, evictions, cleanup and clearing over a changing file system.
* **HostQueue, Pool, PoolHosts, PoolCalls, PoolClears, PoolEntries, PoolLimits.** One host's queue as the code under
  its lock changes it; the pool as a machine of single steps that any number of tasks interleave; whose connections
  a caller gets; what a get, a sweep and a clear do however others step in between; when queued connections can be
  found; and runs that show what is not promised.
* **HeaderText, Multipart, MultipartPrinter, RoundTrip, MultipartArena, ArenaRoundTrip, HeaderMeaning.** UTF-8
  (section 3 of RFC 3629), trimming and quoting; the copying multipart parser; the printer of the test suite, and
  parts with any further header lines; their inverse theorem; the zero-copy parser; the refinement between the two
  parsers (section 4 of RFC 7578 over section 5.1.1 of RFC 2046); and what headers mean in any layout.

Code that works by updating state is written as methods over classes or loops and proved against functions on
values; functions on values that the Rust code computes by library calls (`str::split`, `trim`, `find`,
`from_utf8`) are functions here. The Rust integer type `usize` is taken as 64 bits wide.

Where the code and its comments disagree, the model follows the code:

* `Body::bytes(None)` is unlimited (src/lib.rs:743-765), although a comment on the field calls it the same as
  `bytes(max_body_size)` (src/lib.rs:626).
* A body made by `from_bytes` hands out its bytes before it ends (src/lib.rs:699-703), although a comment says
  that `read_chunk` reports the end at once (src/lib.rs:652).

What the code does not promise in general, with the condition under which it holds:

* `split_bytes_arena` tests every position although `split_bytes` skips past a match, so a delimiter that overlaps
  itself makes them differ (`Split.SplitsAgreeIff`).
* The zero-copy parser drops parts without a name; the copying parser drops text parts whose name holds
  `filename=` and files with an empty file name (`ArenaRoundTrip.ParsersAgreeIff`).
* With bytes behind the request, the body may hold some of them, depending on how the network slices the stream
  (`Slicing.SlicingMattersIff`, `Slicing.StreamSlicingMattersIff`). A capped header read never reaches past
  64 KiB, so a longer request is safe from this.
* `active_connections` is the number of streams held only when reuses balance failed attempts and dropped streams
  (`Pool.ActiveIsHeldIff`; `PoolLimits.HeldButNotActive` is a run on which they do not).
* A stored connection need not be findable (`PoolLimits.StoredButNotFindable`). `PoolEntries.StrandedIff` names the
  steps that strand one, and `PoolEntries.CarefulRunsStrandNothing` a condition on whole runs.
* With no cacheable file the count loop of the cache never ends (`FileCache.CountLoopEndsIff`).

## Model

| member | source | states |
|---|---|---|
| MarkerSearch.MaskBits | src/helpers/traits/bytes.rs:61-63 | a bit of the movemask result is set exactly when its lane holds CR |
| MarkerSearch.NarrowMask | src/helpers/traits/bytes.rs:63 | narrowing the 16-lane mask to `u16` loses no bit |
| MarkerSearch.LaneMiss | src/helpers/traits/bytes.rs:67-75 | a lane whose bit is clear begins no marker, so it may be skipped |
| MarkerSearch.EmptyMask | src/helpers/traits/bytes.rs:102-113 | a block with an empty mask begins no marker in any lane |
| MarkerSearch.ScanBlock | src/helpers/traits/bytes.rs:58-77 | one in-bounds block load yields the first marker beginning in the block, even one that straddles its end, or shows there is none |
| MarkerSearch.FindScalar | src/helpers/traits/bytes.rs:120-125 | the length test in front of the window search changes no answer |
| MarkerSearch.FindSse2 | src/helpers/traits/bytes.rs:30-81 | 16-byte blocks and the scalar tail give the least index of CR LF CR LF, for every input |
| MarkerSearch.FindAvx2 | src/helpers/traits/bytes.rs:85-118 | 32-byte blocks and the SSE2 tail give the least index of CR LF CR LF, for every input |
| MarkerSearch.FindHeaderEnd | src/helpers/traits/bytes.rs:11-20 | whichever instruction sets the processor reports, the entry point returns the same least index |
| MarkerSearch.FoundIsLeast | src/helpers/traits/bytes.rs:8-10 | the bytes 13, 10, 13, 10 stand at the index returned and nowhere before; no index means they stand nowhere |
| Search.PiecesJoin | src/helpers/traits/bytes.rs:143-171 | the pieces joined by the delimiter give the input back, and every cut is leftmost |
| Search.PiecesUnique | src/helpers/traits/bytes.rs:143-171 | the leftmost decomposition is the only one: any pieces cut leftmost are the pieces found |
| Split.SplitBytes | src/helpers/traits/bytes.rs:143-171 | the skipping loop returns the leftmost pieces without the empty ones and without a final `--` CR LF |
| Split.PartsFromKept | src/helpers/traits/bytes.rs:150-169 | what the loop still has to push at any restart is the kept part of the leftmost pieces from there |
| Split.KeptIs | src/helpers/traits/bytes.rs:155-169 | what is kept of the pieces: all that are not empty, without a final one that is `--` CR LF; one that stands earlier is kept |
| Split.SplitBytesArena | src/helpers/traits/bytes.rs:192-218 | the every-position loop returns spans inside the input, the ones of its specification |
| Split.UnborderedSplitsAgree | src/helpers/traits/bytes.rs:142-218 | for a delimiter that cannot overlap itself both loops return the same slices, for every long enough input |
| Split.OverlapIsBorder | src/helpers/traits/bytes.rs:196-206 | two overlapping matches of a delimiter show a proper border of it |
| Split.BorderedSplitsDiffer | src/helpers/traits/bytes.rs:142-218 | for every bordered delimiter an input is built on which the two loops differ |
| Split.SplitsAgreeIff | src/helpers/traits/bytes.rs:142-218 | the two loops agree on all long enough inputs exactly when the delimiter has no proper border |
| Split.ShortInput | src/helpers/traits/bytes.rs:147-149 | on an input shorter than the delimiter only the zero-copy form returns anything |
| Split.SplitHeaderBodyArena | src/helpers/traits/bytes.rs:220-246 | header and body are the bytes before and after the first empty line; without one all is header |
| Split.HeaderBodyIs | src/helpers/traits/bytes.rs:220-246 | header, CR LF CR LF and body are the part again, with no such marker beginning in the header; or all is header and there is no marker |
| ContentLengthHeader.ExtractContentLength | src/helpers/traits/http_stream.rs:799-850 | the nested scan computes the line-based specification for every byte string |
| ContentLengthHeader.FirstLineDecides | src/helpers/traits/http_stream.rs:802-846 | the field used stands on the first line that begins with the name, and one is found if any line has it |
| ContentLengthHeader.RunsAreMaximal | src/helpers/traits/http_stream.rs:823-830 | the value is the maximal digit run behind all spaces and tabs |
| ContentLengthHeader.ParseDigits | src/helpers/traits/http_stream.rs:831-837 | the checked loop gives the true decimal value, or nothing exactly when that exceeds the `usize` maximum |
| ContentLengthHeader.DecimalGrows | src/helpers/traits/http_stream.rs:834-836 | an overflow part of the way is final: reading on never makes the number smaller |
| ContentLengthHeader.ReadValue | src/helpers/traits/http_stream.rs:821-839 | blanks, digits, conversion: the value of the matched field, or nothing without a digit |
| ContentLengthHeader.ScanLine | src/helpers/traits/http_stream.rs:804-808 | the inner loop stops at the line's end |
| ContentLengthHeader.MatchName | src/helpers/traits/http_stream.rs:810-819 | the byte loop accepts exactly the field name in any case |
| ContentLengthHeader.PrintedLengthParses | src/helpers/traits/http_response.rs:684-690 | any number printed after `content-length:`, each letter in either case, behind any run of bytes 32 and 9, is read back, whatever follows; one beyond `usize` reads as absent |
| ContentLengthHeader.StrayByteHidesLength | src/helpers/traits/http_stream.rs:821-839 | with any other byte behind the spaces and tabs, or nothing, there is no value |
| ContentLengthHeader.NamedNowhereIs | src/helpers/traits/http_stream.rs:802-819 | a field is found exactly when some line begins with the fifteen bytes of the name, each letter in either case |
| Network.Socket.Read | src/helpers/traits/http_stream.rs:558-592 | a timed read delivers a non-empty prefix of what is pending, or end of file, a timeout or an error, and moves no other byte |
| Network.Socket.ReadAwait | src/lib.rs:727-735 | an untimed read delivers bytes or fails; no bytes means end of file or no room |
| Reader.DetermineNextReadSize | src/helpers/traits/http_stream.rs:783-790 | every read of the header loop asks for at least 1 KiB and at most 8 KiB |
| Reader.ReadSizesGrow | src/helpers/traits/http_stream.rs:783-790 | the size asked for never shrinks as the buffer grows, and reaches its ends |
| Reader.SizesOfReads | src/helpers/traits/http_stream.rs:532-564 | the buffer that each read of the header loop fills up to, with and without the cap, in numbers |
| Reader.DeadlineIs | src/helpers/traits/http_stream.rs:543-546 | the deadline of the header loop, in numbers |
| Reader.HeaderEndMeans | src/helpers/traits/http_stream.rs:569-573 | the header ends just behind the first CR LF CR LF, named byte by byte, and nowhere without one |
| Reader.RescanThree | src/helpers/traits/http_stream.rs:569-573 | looking from three bytes before the new data finds the first marker of the whole buffer |
| Reader.SearchNew | src/helpers/traits/http_stream.rs:569-573 | one incremental search gives the header end of all bytes so far |
| Reader.ReadInto | src/helpers/traits/http_stream.rs:553-592 | growing, reading and truncating leave the buffer equal to the bytes taken from the socket |
| Reader.HeaderTurn | src/helpers/traits/http_stream.rs:554-592 | one turn keeps the buffer equal to the bytes taken and within its limit, decides the header end of all of them, and accounts for one read |
| Reader.BudgetTurn | src/helpers/traits/http_stream.rs:576-590 | one more read keeps the account: failures in a row, and at most `max_retry` reads per byte received |
| Reader.ScanHeader | src/helpers/traits/http_stream.rs:547-593 | the header loop ends if time passes or no read blocks; its result describes exactly the bytes taken, on data-only runs as many as the schedule makes it take; the buffer keeps its limit; no read starts after the deadline; without WouldBlock at most `max_retry` reads are made per byte received and once more, only timeouts count as retries; no header means end of file, a full buffer or `max_retry` failures in a row, and an error means a passed deadline or a failed last read |
| Reader.ReadHeadersOnly | src/helpers/traits/http_stream.rs:523-625 | on success the header ends at the first marker of the whole stream and header and leftover are the prefix read, whatever the slicing; a marker within 64 KiB is always found when reads make progress, and then the call succeeds exactly when no Content-Length above the configured limit is announced; the size error means such a length, success means none; the buffer never exceeds 64 KiB; every error has its exact cause |
| Reader.HeaderOfPrefix | src/helpers/traits/http_stream.rs:569-573 | a header found in any prefix is the header of the whole stream, with the same length field |
| Reader.ScanMeansStream | src/helpers/traits/http_stream.rs:599-602 | what a scan says of the bytes it took holds of the stream they came from |
| Reader.CollectBody | src/helpers/traits/http_stream.rs:736-773 | the body loop returns the start and the bytes taken, at most the expected length, stops short only at end of file or after `max_retry` failures in a row, makes at most `max_retry * (m + 1)` reads for `m` missing bytes, and its buffer never exceeds the bytes received by more than one chunk |
| Reader.ReadBody | src/helpers/traits/http_stream.rs:741-769 | one body read appends what the socket delivers and counts everything else as a failure |
| Reader.BeginRequest | src/helpers/traits/http_stream.rs:715-736 | a Content-Length above the configured limit, and only that, is the size error; it and the total length are judged on the header of the stream; a sum beyond `usize` is an error in a build that checks and wraps in one that does not |
| Reader.BodyCompletes | src/helpers/traits/http_stream.rs:741-773 | when only data and end of file arrive, the body loop stops with exactly the expected bytes, or all the peer sent |
| Reader.HowBodyStops | src/helpers/traits/http_stream.rs:741-769 | a body that ends before the announced length met end of file or as many failures in a row as retries were left |
| Reader.GetBytesFromReader | src/helpers/traits/http_stream.rs:627-780 | the buffered reader returns exactly the bytes taken; the size error means a Content-Length above the limit, success with a header means none, and that the body is whole or why the loop stopped; with a prompt header it succeeds exactly when the request is acceptable, and then has what the schedule made its header loop take, or all of the request; reads and buffer length are bounded |
| Reader.GetBytesArenaDirect | src/helpers/traits/http_stream.rs:946-1103 | the arena reader does the same without the cap on the header, judges the size limit alike, and marks the end of the first header block as the start of the body |
| Reader.ReadRemainingBody | src/helpers/traits/http_stream.rs:480-519 | the leftover is completed to the declared length, or to end of file, never beyond; reads and buffer length are bounded |
| Reader.WrapsBelowHeader | src/helpers/traits/http_stream.rs:735 | where header end plus Content-Length wraps, the sum is below the header end, so no body is read |
| Slicing.FillReach | src/helpers/traits/http_stream.rs:547-575 | on data-only schedules the header loop has taken at least the header, and no more than one read beyond some position before its end may bring |
| Slicing.DripReaches | src/helpers/traits/http_stream.rs:547-575 | byte by byte the loop comes by every position before the end of the header |
| Slicing.SlicingShows | src/helpers/traits/http_stream.rs:547-612 | where a header read may reach past the request, two schedules give different bodies |
| Slicing.SlicingHides | src/helpers/traits/http_stream.rs:547-612 | where none may, every schedule gives the same body |
| Slicing.SlicingMattersIff | src/helpers/traits/http_stream.rs:547-612 | the body of a buffering reader depends on the slicing exactly when bytes follow the request and a header read from some position before the end of the header may reach them |
| Slicing.StreamSlicingMattersIff | src/lib.rs:697-770 | the same for the streaming reader with a declared length; without one its body never depends on the slicing |
| Slicing.GivenIsBody | src/helpers/traits/http_stream.rs:736-773 | with no byte behind the request every schedule gives the whole body |
| RequestBody.Body.NewStreaming | src/lib.rs:634-649 | a new streaming body has handed out nothing and holds the leftover and the socket |
| RequestBody.Body.FromBytes | src/lib.rs:653-663 | a buffered body still has all of its bytes to hand out |
| RequestBody.Body.ReadChunk | src/lib.rs:697-738 | each chunk is the next non-empty piece of the rest, an error is that of this very read and loses nothing, and the end of the body is permanent |
| RequestBody.Body.ReadSocket | src/lib.rs:718-737 | a socket chunk never reaches past the declared length, and end of file ends the body |
| RequestBody.Body.ReadChunks | src/lib.rs:697-738 | over any number of calls the chunks and what is left make up what there was; all that was ever handed out, with the leftover, is the first bytes and the socket prefix consumed, counted by `consumed`, at most the missing part of the declared length being taken |
| RequestBody.Body.Bytes | src/lib.rs:742-770 | returns the whole rest; without read errors it fails exactly when the declared or the actual length exceeds the cap |
| Paths.ParseRequestAuto | src/lib.rs:494-564 | an announced length within the cap goes to the arena, all else to streaming, and one above the size limit to neither; both hold exactly the bytes taken, on prompt runs as many as the schedule makes them take |
| Paths.BufferedBody | src/helpers/traits/http_stream.rs:627-780 | the buffered path yields the bytes behind the header up to what the schedule made it take, or the end of the request, for every data-only run |
| Paths.StreamedBody | src/lib.rs:742-770 | header read and `bytes(None)` yield the bytes behind the header up to what came along with it or the end of the request, or to end of file without a declared length |
| Paths.ArenaDirectBody | src/helpers/traits/http_stream.rs:946-1103 | the arena path yields the bytes behind the header up to what the schedule made it take, or the end of the request, for every data-only run |
| Paths.AutoBody | src/lib.rs:494-564 | the automatic path yields what the streaming one does, whatever its cap |
| Paths.PathsAgree | src/helpers/traits/http_stream.rs:480-780 | four different runs of the network over one request give the same body by all four ways |
| Paths.TwoBodies | src/helpers/traits/http_stream.rs:627-780 | where a header read may reach past the request, two runs of the buffered reader over one stream give different bodies |
| VectoredSend.RemainingBufs | src/helpers/traits/http_response.rs:614-635 | the rebuilt list flattens to exactly the unsent suffix, and the early `break` is never taken |
| VectoredSend.SendVectored | src/helpers/traits/http_response.rs:601-645 | every write is offered exactly the unsent suffix; success means all bytes went once and in order, failure leaves a prefix and is that of the last write; it ends on every schedule of short writes |
| VectoredSend.SendBytes | src/helpers/traits/http_response.rs:573-598 | the same for one buffer |
| VectoredSend.TotalSize | src/helpers/traits/http_response.rs:610 | the sum of the lengths is the length of the concatenation |
| VectoredSend.SendEach | src/helpers/traits/http_response.rs:573-598 | consecutive plain sends deliver the concatenation in order, or a prefix of it |
| VectoredSend.EitherWay | src/helpers/traits/http_response.rs:573-645 | one vectored send and consecutive plain sends put the same bytes on the wire, under independent schedules |
| FileCache.ZeroCopyCache.TotalSize | src/helpers/traits/zero_copy.rs:369 | summing in any iteration order gives the one total of the stored sizes |
| FileCache.ZeroCopyCache.FindOldest | src/helpers/traits/zero_copy.rs:390-393 | some entry that no other entry precedes in access time |
| FileCache.ZeroCopyCache.EvictOldest | src/helpers/traits/zero_copy.rs:382-406 | exactly one least recently used entry leaves, and its stored size is returned |
| FileCache.ZeroCopyCache.EnsureCapacity | src/helpers/traits/zero_copy.rs:358-379 | both loops end; the victims left one by one, each the oldest then left and each while the new file did not fit; afterwards it fits or the cache is empty |
| FileCache.NoYoungerVictim | src/helpers/traits/zero_copy.rs:358-406 | no victim was accessed later than any survivor |
| FileCache.EvictsFewest | src/helpers/traits/zero_copy.rs:358-379 | with distinct access times, any eviction that prefers older entries and makes the file fit contains these victims |
| FileCache.CountLoopEndsIff | src/helpers/traits/zero_copy.rs:364-366 | every run of evictions by the count loop meets its exit, within as many as there are entries, exactly when at least one file may be cached |
| FileCache.CountRunSizes | src/helpers/traits/zero_copy.rs:364-366 | after k evictions the cache has k entries fewer, down to none, whichever of the oldest leave |
| FileCache.TotalRemove | src/helpers/traits/zero_copy.rs:369-375 | removing any entry lowers the total by its size, whatever the iteration order |
| FileCache.ZeroCopyCache.LoadFromMemory | src/helpers/traits/zero_copy.rs:310-355 | a hit on path and modification time returns the stored data and changes only the access time; a miss leaves exactly the new entry beside the unchanged survivors, and the victims are the oldest, one by one; a file that is gone leaves all as it was |
| FileCache.ZeroCopyCache.LoadFile | src/helpers/traits/zero_copy.rs:287-307 | a hit returns the stored data and sets its access time, whatever the read would see; a miss stores exactly what was read beside the unchanged survivors; a file above the size limit, or a missing one, leaves the cache as it was; count and size limits are kept |
| FileCache.StoredBounds | src/helpers/traits/zero_copy.rs:344-379 | after a store the file is cached and the count limit kept, and the total limit is broken exactly by a file that exceeds it alone |
| FileCache.Load | src/helpers/traits/zero_copy.rs:287-355 | with equal path and modification time meaning equal content, a load gives the file as it is on disk, leaves a cacheable one cached, and keeps both limits |
| FileCache.ZeroCopyCache.CleanupExpired | src/helpers/traits/zero_copy.rs:409-435 | exactly the entries idle longer than the cache duration leave |
| FileCache.ZeroCopyCache.Clear | src/helpers/traits/zero_copy.rs:451-460 | nothing is left |
| FileCache.Perform | src/helpers/traits/zero_copy.rs:287-460 | each operation keeps the invariant, answers as if there were no cache, and leaves both limits kept |
| FileCache.RunAll | src/helpers/traits/zero_copy.rs:287-460 | over every sequence of loads, file changes, cleanups and clears the cache is not noticed, its limits hold after each operation, and right after a successful load of a cacheable file that file is cached |
| HostQueue.Queue.TakeFresh | src/connection_pool.rs:261-273 | drops expired connections from the front, reuses the first unexpired one, keeps all behind it, even while the clock moves |
| HostQueue.Queue.Offer | src/connection_pool.rs:314-322 | stores at the back exactly when the queue is below its limit |
| HostQueue.Queue.Retain | src/connection_pool.rs:361 | the cleanup keeps exactly the unexpired connections, in order |
| HostQueue.RetainedIs | src/connection_pool.rs:361 | the connections kept are, with their multiplicity, the unexpired ones |
| HostQueue.RetainedOrdered | src/connection_pool.rs:361 | and their order is kept |
| HostQueue.TakeFreshNow | src/connection_pool.rs:256-274 | with the clock standing still a connection is reused exactly when an unexpired one is queued, and only expired ones before it are dropped |
| HostQueue.ExpiredIsPrefix | src/connection_pool.rs:67-71 | in return order, whoever stands before an expired connection is expired |
| HostQueue.ExpiredIs | src/connection_pool.rs:67-71 | a connection has expired exactly when its idle time or its age, as differences of times, is above its limit; a time still to come counts as none |
| HostQueue.TakeLosesNothingLive | src/connection_pool.rs:261-273 | popping the front of an ordered queue removes exactly what the cleanup would |
| HostQueue.OrderKept | src/connection_pool.rs:321-322 | storing at the current time and dropping any entry keep the return order |
| Pool.MutualExclusion | src/connection_pool.rs:259-361 | two tasks are never inside the same queue |
| Pool.FramedLocked | src/connection_pool.rs:256-433 | every step keeps the lock discipline: a queue's holder is the one task inside it |
| Pool.PlacedStep | src/connection_pool.rs:256-433 | every step keeps every opened stream in exactly one place |
| Pool.EveryQueueSteps | src/connection_pool.rs:256-433 | a step changes a queue only by dropping one entry, emptying it, or storing at its end below the limit with the current time |
| Pool.OrderedStep | src/connection_pool.rs:319-322 | every step keeps every queue sorted by return time |
| Pool.BoundedStep | src/connection_pool.rs:314-318 | every step keeps every queue within its limit |
| Pool.CountedStep | src/connection_pool.rs:265-279 | every step keeps hits equal to reuses, misses to new connections, these to opened and failed ones, and what callers hold to what was handed out less what came back or was dropped, up to calls between two updates; `active` is misses minus returns modulo 2^64 |
| Pool.SafeStep | src/connection_pool.rs:256-433 | all of this together is kept by every step of every task |
| Pool.EveryRunIsSafe | src/connection_pool.rs:256-433 | every interleaving of any number of tasks, from the empty pool, is safe |
| Pool.StreamInOnePlace | src/connection_pool.rs:256-331 | in a safe state a stream is opened exactly when it is somewhere, is in one place only, and is never with two callers |
| Pool.HeldStep | src/connection_pool.rs:256-331 | every step keeps the account of streams held by callers |
| Pool.SettledCounts | src/connection_pool.rs:265-279 | with no call between two updates hits are the reuses, misses the new connections, and the streams held follow from the counters |
| Pool.ActiveIsHeldIff | src/connection_pool.rs:265-324 | then `active_connections` is the number of streams held exactly when reuses are as many as failed attempts and dropped streams, modulo 2^64 |
| PoolHosts.HostedStep | src/connection_pool.rs:256-375 | every step keeps that each queue belongs to one host, holds only streams last returned under that host, and is entered for no other host, by gets, returns and sweeps alike |
| PoolHosts.EveryGetHasItsHost | src/connection_pool.rs:256-331 | on every run, the stream that a get finds was last returned under the host it was asked for |
| PoolHosts.LookupFinds | src/connection_pool.rs:258-260 | a get enters the queue of its host if there is one, and misses exactly if there is none |
| PoolHosts.GetChoice | src/connection_pool.rs:261-273 | under the lock, the idle time and age of the front connection decide what a get does next |
| PoolHosts.ReturnChoice | src/connection_pool.rs:294-322 | only a return with keep-alive on both sides goes to a queue, and it stores exactly when the queue is below its limit |
| PoolCalls.OnlyInside | src/connection_pool.rs:259-361 | only the task inside a queue changes it, until its last reference goes |
| PoolCalls.HeldQueueKept | src/connection_pool.rs:259-361 | while a task holds a queue, no step of another changes the queue or the task |
| PoolCalls.GetOnAnyRun | src/connection_pool.rs:259-273 | on every interleaving, a get under the lock has dropped only expired connections from the front, each of them closed, and found the first that had not expired, or dropped all |
| PoolCalls.GetDecides | src/connection_pool.rs:256-274 | with the clock standing still a get that has decided reuses exactly when an unexpired connection was queued, namely the first, leaving what stood behind it |
| PoolCalls.GetUnderLock | src/connection_pool.rs:256-274 | on every interleaving with the clock standing still, a get that got the lock and has decided found the first unexpired connection, or there was none |
| PoolCalls.SweepOnAnyRun | src/connection_pool.rs:357-361 | on every interleaving with the clock standing still, a sweep under the lock has kept the unexpired of the entries looked at, in front of the others |
| PoolCalls.SweepUnderLock | src/connection_pool.rs:357-361 | on every such interleaving the sweep leaves exactly what `retain` leaves |
| PoolCalls.SweepFinishes | src/connection_pool.rs:357-375 | where a sweep may let the lock go it has kept exactly the unexpired, and goes on to remove the map entry exactly when that is nothing |
| PoolCalls.GetStepsAreTakeFresh | src/connection_pool.rs:261-279 | taken without interruption, the popping loop does reach its end, with the connection and the queue that it gives in place and the dropped ones closed |
| PoolCalls.ReturnStepIsOffer | src/connection_pool.rs:311-331 | the end of a return is one step that stores or closes as in place |
| PoolCalls.SweepStepsAreRetain | src/connection_pool.rs:357-375 | taken without interruption, a sweep does reach its end, with what `retain` leaves |
| PoolClears.ClearOnAnyRun | src/connection_pool.rs:420-426 | on every interleaving, a clear under way has emptied each queue it started with, and closed what was in it, or still has that queue before it |
| PoolClears.ClearEmptiesAll | src/connection_pool.rs:417-433 | on every interleaving, when a clear ends no host has an entry, and every queue that had one throughout was emptied on the way and its connections closed |
| PoolEntries.StrandedIff | src/connection_pool.rs:305-375 | after any step a queue holds connections without a map entry exactly when the step removed the entry of a non-empty queue or stored into a queue without one, or it was so before and the step did not empty it |
| PoolEntries.UnsharedStep | src/connection_pool.rs:305-309 | every step keeps that no two hosts share a queue |
| PoolEntries.EnteredStep | src/connection_pool.rs:293-433 | while no return overlaps a cleanup of its host or a clear, every step keeps all connections in queues with an entry, and every removal justified |
| PoolEntries.CarefulRunsStrandNothing | src/connection_pool.rs:293-433 | on every run on which no return overlaps a cleanup of its host or a clear, every queued connection is in a queue that some host leads to |
| PoolLimits.StoredButNotFindable | src/connection_pool.rs:369-375 | a run after which a kept connection is in a queue without a map entry |
| PoolLimits.OrphanForever | src/connection_pool.rs:305-309 | a queue that has lost its map entry never gets one again, on any run |
| PoolLimits.HeldButNotActive | src/connection_pool.rs:265-269 | a run after which a caller holds a connection while `active_connections` is 0 |
| HeaderText.UnquoteQuoted | src/helpers/traits/mod.rs:23-26 | trimming quotes gives a quoted text back exactly when it has no quote at its ends |
| HeaderText.UnquoteTakes | src/helpers/traits/mod.rs:23-26 | unquoting takes exactly the double quotes at both ends, then the single quotes under them |
| HeaderText.TrimTakes | src/helpers/traits/mod.rs:20-25 | trimming takes exactly the white-space characters, each named by its bytes, off both ends |
| HeaderText.ValidUtf8Append | src/helpers/traits/http_request.rs:88-91 | UTF-8 texts in a row are UTF-8 |
| HeaderText.ValidUtf8Iff | src/helpers/traits/http_request.rs:86-89 | a byte string is accepted exactly when it is the encoding of some Unicode scalar values |
| Multipart.GetHeaderChild | src/helpers/traits/mod.rs:14-33 | the loop builds the parameter map of the specification, later keys over earlier ones |
| Multipart.ReadHeader | src/helpers/traits/http_request.rs:96-130 | all header lines in order, empty ones skipped |
| Multipart.TrimBody | src/helpers/traits/http_request.rs:132-139 | the CR and LF run at the end of the body is cut, and nothing else |
| Multipart.GetMultiPart | src/helpers/traits/http_request.rs:55-149 | the form of the specification for every content type and body, with the error for a header value that is not visible ASCII |
| MultipartPrinter.MakeMultipartBody | src/helpers/traits/http_request.rs:301-324 | the printed bytes are delimiter and part in turn, each part with its disposition as only header line, then delimiter and closing mark |
| RoundTrip.ParamParses | src/helpers/traits/mod.rs:19-29 | a printed parameter enters the map under its key with its exact text |
| RoundTrip.ValueNamesFile | src/helpers/traits/http_request.rs:107 | a printed value is taken for a file's exactly when it is one or its name holds `filename=` |
| RoundTrip.LineGivesHead | src/helpers/traits/http_request.rs:102-120 | a disposition line, its key in any case, gives name and file name as printed |
| RoundTrip.OtherLineKeeps | src/helpers/traits/http_request.rs:102-128 | any line that does not begin with `content-disposition`, in any case, leaves name, file name and text name as they are |
| RoundTrip.ChunkHeader | src/helpers/traits/http_request.rs:78-83 | the header of a part, of any number of lines, ends at its own empty line, whatever the body holds |
| RoundTrip.HeaderPieces | src/helpers/traits/http_request.rs:96 | cut at its line ends, a header is its lines again |
| RoundTrip.PartParses | src/helpers/traits/http_request.rs:77-148 | a part with any further header lines before and after its disposition is parsed to its name, file name and trimmed body, or dropped exactly when its name or file name says so |
| RoundTrip.BodyPieces | src/helpers/traits/bytes.rs:143-171 | the leftmost cuts of a printed body fall exactly between its parts |
| RoundTrip.PartsOfPrinted | src/helpers/traits/bytes.rs:143-171 | splitting a printed body gives its parts in order, and what the closing mark leaves |
| RoundTrip.PrintedPartsExactly | src/helpers/traits/bytes.rs:143-171 | with a boundary that is not empty the parts are exactly the printed ones |
| RoundTrip.ClosingIsNoPart | src/helpers/traits/http_request.rs:74-91 | what the closing mark leaves adds nothing to the form, even when the boundary is made of dashes |
| RoundTrip.PrintedBodyParses | src/helpers/traits/http_request.rs:74-148 | parsing a body of parts with any further header lines gives back all kept text fields and files, in order, each body without its final CR/LF run |
| RoundTrip.AllPartsKeptIff | src/helpers/traits/http_request.rs:141-147 | no part is missing exactly when no text name holds `filename=` and no file name is empty |
| RoundTrip.BodyKeptIff | src/helpers/traits/http_request.rs:132-139 | a body comes back unchanged exactly when it does not end in CR or LF |
| RoundTrip.BoundaryFound | src/helpers/traits/http_request.rs:58-69 | the boundary is found in the content type it was put in |
| RoundTrip.PrintAndParse | src/helpers/traits/http_request.rs:301-324 | printing fields, sending under the matching content type and parsing is the identity on kept fields, up to trimming |
| RoundTrip.ParsePrinted | src/helpers/traits/http_request.rs:55-149 | the same for parts with further header lines, as a browser sends them with a file |
| RoundTrip.ContentSeparates | src/helpers/traits/http_request.rs:301-324 | with a boundary without quotes and line ends only the names, the bodies and the further header lines can hold the delimiter |
| MultipartArena.PieceSpansSlices | src/helpers/traits/http_request.rs:219 | splitting into slices of the arena gives the texts that splitting gives |
| MultipartArena.TrimSpanSlice | src/helpers/traits/http_request.rs:280 | trimming a slice stays inside the arena and gives the text that `trim` leaves of valid UTF-8 |
| MultipartArena.ExtractContentDispositionValue | src/helpers/traits/http_request.rs:277-294 | the slice returned lies in the arena and holds the unquoted value of the first parameter with that key in any case; none exactly when there is no such parameter |
| MultipartArena.NoteHeader | src/helpers/traits/http_request.rs:228-245 | what one header says of name, file name and content type, later ones over earlier ones |
| MultipartArena.ReadArenaLine | src/helpers/traits/http_request.rs:219-252 | one header line, as slices that hold what the specification says |
| MultipartArena.ReadArenaHeader | src/helpers/traits/http_request.rs:219-253 | all header lines in order |
| MultipartArena.ReadArenaPart | src/helpers/traits/http_request.rs:202-268 | one part: nothing for a part without a name, an error for a header that is not UTF-8, otherwise slices that hold what the specification says |
| MultipartArena.ReadArenaParts | src/helpers/traits/http_request.rs:202-269 | all parts in order, ended by the first error |
| MultipartArena.GetMultiPartArena | src/helpers/traits/http_request.rs:181-272 | every slice of the form lies in the arena, and read as texts the form is the specified one; each error in its case |
| ArenaRoundTrip.ArenaPartsOfPrinted | src/helpers/traits/bytes.rs:192-218 | on a printed body the every-position scan gives exactly the printed parts in order, and a harmless leftover only if the boundary is nothing but dashes |
| ArenaRoundTrip.OtherLineNoted | src/helpers/traits/http_request.rs:219-252 | any line without a disposition leaves name and file name as they are, adds what it says to the headers, and its value to the content type if that is its name, in any case |
| ArenaRoundTrip.PrintedHeaderNoted | src/helpers/traits/http_request.rs:223-251 | a header written as name, colon, space and value is kept as that pair, and is the content type exactly when its name spells `content-type` |
| ArenaRoundTrip.ArenaPartParses | src/helpers/traits/http_request.rs:202-268 | a part with any further header lines is read to its name, file name, last content type, all headers in order, and body with CR LF, for names that the copying parser would misread too |
| ArenaRoundTrip.AnyBodyParses | src/helpers/traits/http_request.rs:254-267 | whatever stands behind its header, a file is kept even without content, a text only with some, and neither without a name |
| ArenaRoundTrip.PrintedBodyParsesInArena | src/helpers/traits/http_request.rs:200-272 | the zero-copy form of a printed body has all named parts, in order, each body with the CR LF behind it |
| ArenaRoundTrip.ParsersAgreeIff | src/helpers/traits/http_request.rs:74-272 | on a printed body the copying form is the zero-copy form, trimmed, exactly when each part is kept by both parsers or dropped by both |
| ArenaRoundTrip.PrintAndParseInArena | src/helpers/traits/http_request.rs:181-324 | printing fields, sending and parsing without copying gives slices of the printed body that hold the named fields |
| ArenaRoundTrip.ParsePrintedInArena | src/helpers/traits/http_request.rs:181-272 | the same for parts with further header lines |
| HeaderMeaning.TrimLineEndsTakes | src/helpers/traits/http_request.rs:132-139 | trimming a body takes exactly the run of bytes 13 and 10 at its end |
| HeaderMeaning.PieceAdds | src/helpers/traits/mod.rs:20-29 | a parameter with any white space around key and value adds the unquoted value under its key; a piece without equals sign adds nothing |
| HeaderMeaning.ValueMeans | src/helpers/traits/mod.rs:14-33 | a value of any number of parameters, in any order and layout, means the last value of each key |
| HeaderMeaning.ValueAnswers | src/helpers/traits/http_request.rs:277-294 | the zero-copy parser finds the first parameter with the key, in any case and with no space behind it |
| HeaderMeaning.DispositionMeans | src/helpers/traits/http_request.rs:102-120 | a disposition line in any spelling sets name and file name, or the name of a text, from its parameters; what is not given stays as it was |
| HeaderMeaning.ArenaDispositionMeans | src/helpers/traits/http_request.rs:223-251 | the same line for the zero-copy parser, with the header kept and the content type as before |
| HeaderMeaning.EmptyDispositionKeeps | src/helpers/traits/http_request.rs:106-120 | a line without colon and space changes nothing |
| HeaderMeaning.NoPartWithoutHeader | src/helpers/traits/http_request.rs:77-91 | a part without an empty line, or whose header is not UTF-8, adds nothing |
| HeaderMeaning.PartMeans | src/helpers/traits/http_request.rs:132-148 | a file name that is not empty makes a file, otherwise the name of a text makes a text, with the body up to its last CR/LF run |
| HeaderMeaning.ArenaFailsIff | src/helpers/traits/http_request.rs:204-211 | the zero-copy parse fails exactly when the header of some part is not UTF-8 |
| HeaderMeaning.BoundaryIs | src/helpers/traits/http_request.rs:62-69 | the boundary is the text between the first `boundary=` and the next one or the end, and there is one only in a content type that holds `multipart/form-data` |
| HeaderMeaning.MarkMissing | src/helpers/traits/http_request.rs:66-69 | without `boundary=` there is none |

## Left out

- Reader.ScanHeader: the source writes the header loop once in each of three readers; the model has one with a flag for the two differences. A loop that neither a deadline ends nor retries, because every read reports WouldBlock, does not end in the source either, and is not covered.
- Reader.CollectBody: the body loop is likewise written three times in the source, with different chunk sizes, and shared here.
- Paths.BufferedBody: takes the end of the header from the first empty line; httparse, which the source asks, is not part of this model, nor are the request line and the header fields it reports.
- Paths.PathsAgree: speaks of requests with a Content-Length; without one the buffered reader stops at the bytes it has and the streaming body reads to end of file, as the contracts of the single paths say.
- Slicing.SlicingMattersIff: speaks of requests whose end fits in a `usize` and whose header ends within 64 KiB, on runs of data and end of file.
- MultipartArena.GetMultiPartArena: pointers into the arena are offsets; lifetimes and alignment are not modelled.
- Multipart.ReadLine: the map of a part's other headers, and which names and values the http crate accepts in it, are not modelled.
- Multipart.ReadPart: a text value is kept as bytes; the replacement of invalid UTF-8 in it is not modelled.
- FileCache.ZeroCopyCache.LoadFile: concurrent loads, and a file that changes its size between the two looks at it, are modelled only as far as the two file systems it takes; limits are promised when the read is not longer than announced.
- FileCache.ZeroCopyCache.EnsureCapacity: asks for at least one cacheable file; with none the count loop does not end (src/helpers/traits/zero_copy.rs:364), as `FileCache.CountLoopEndsIff` shows.
- VectoredSend.SendBytes: the form without vectored I/O, a library call, is not modelled.
- Pool.EveryRunIsSafe: liveness and deadlock are not claimed; the shard locks of the concurrent map are not modelled, so the runs include some that they exclude. A clear visits every queue that has an entry when it begins and still has one when it ends, and possibly others.
- Pool.CountedStep: `total`, `hits`, `misses` and `reused` are unbounded here; only `active` wraps. Storing a connection and counting it down are one step, both being done under the queue's lock.
- Timeouts and deadlines are events and a clock that the schedule chooses; the 64-bit multiplication in the default deadline is not checked for overflow.
- Chunked transfer encoding, which the source does not support.
- Real sockets, TLS, memory mapping and the file system, which appear as schedules and maps.
- The router, websockets, options, presets, statistics texts, response headers, JSON and path joining: easy, or calls into libraries.
