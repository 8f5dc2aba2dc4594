/** A request body that is handed out in chunks, first what came with the header, then the socket. */
module RequestBody {
  import opened Bytes
  import opened Network
  import opened Reader

  const CHUNK: nat := 64 * 1024

  /** How many socket bytes a body of declared length `cl` still wants after `have` bytes. */
  function Wanted(cl: Option<nat>, have: nat, available: nat): (n: nat)
    ensures n <= available
  {
    match cl
    case Some(n) => Min(available, Max(0, n - have))
    case None => available
  }

  lemma WantedStep(cl: Option<nat>, have: nat, available: nat, k: nat)
    requires k <= available && (cl.Some? ==> have + k <= cl.value)
    ensures k <= Wanted(cl, have, available)
    ensures Wanted(cl, have + k, available - k) == Wanted(cl, have, available) - k
  {
  }

  lemma WantedNone(cl: Option<nat>, have: nat)
    ensures Wanted(cl, have, 0) == 0
  {
  }

  /** An event that an untimed read reports as an error. */
  predicate Fails(event: Event) {
    event.Blocked? || event.Broken?
  }

  class Body {
    var leftover: seq<Byte>
    var stream: Socket?
    const contentLength: Option<nat>
    var consumed: nat
    const maxBodySize: Option<nat>

    // what the body was made from, and all it has handed out
    ghost const first: seq<Byte>
    ghost const source: Socket?
    ghost const origin: nat
    ghost var delivered: seq<Byte>

    ghost predicate Valid()
      reads this, source
    {
      && consumed == |delivered|
      && (leftover != [] ==> leftover == first && delivered == [])
      && if source == null then stream == null && (leftover == [] ==> delivered == first)
         else
           && origin <= source.pos <= |source.stream|
           && (stream == null || stream == source)
           && (stream == null ==> source.pos == |source.stream|)
           && (leftover != [] ==> source.pos == origin)
           && (leftover == [] ==> delivered == first + source.stream[origin..source.pos])
           && (contentLength.Some? ==> source.pos - origin <= Max(0, contentLength.value - |first|))
    }

    /** End of body: nothing left over, and the declared length reached or the socket closed. */
    ghost predicate Ended()
      reads this
    {
      leftover == [] && (stream == null || (contentLength.Some? && consumed >= contentLength.value))
    }

    /** The socket bytes still to be handed out. */
    ghost function Pending(): seq<Byte>
      requires Valid()
      reads this, source
    {
      if stream == null then []
      else
        stream.stream[stream.pos..stream.pos
          + Wanted(contentLength, consumed + |leftover|, |stream.stream| - stream.pos)]
    }

    /** All bytes still to be handed out. */
    ghost function Rest(): seq<Byte>
      requires Valid()
      reads this, source
    {
      leftover + Pending()
    }

    /** No read from now on reports an error. */
    ghost predicate Healthy()
      reads this, source
    {
      source != null ==> forall t :: source.ticks <= t ==> !Fails(source.schedule(t))
    }

    lemma RestIsPending()
      requires Valid() && leftover == []
      ensures Rest() == Pending()
    {
    }

    constructor NewStreaming(leftover: seq<Byte>, stream: Socket, contentLength: Option<nat>, maxBodySize: Option<nat>)
      requires stream.Valid()
      ensures Valid() && first == leftover && source == stream && origin == stream.pos
      ensures this.leftover == leftover && this.stream == stream && this.contentLength == contentLength
      ensures this.maxBodySize == maxBodySize && delivered == [] && consumed == 0
    {
      this.leftover, this.stream, this.contentLength := leftover, stream, contentLength;
      this.maxBodySize, consumed := maxBodySize, 0;
      first, source, origin, delivered := leftover, stream, stream.pos, [];
    }

    constructor FromBytes(bytes: seq<Byte>)
      ensures Valid() && first == bytes && source == null && delivered == []
      ensures leftover == bytes && contentLength == Some(|bytes|) && Rest() == bytes
    {
      leftover, stream, contentLength := bytes, null, Some(|bytes|);
      maxBodySize, consumed := None, 0;
      first, source, origin, delivered := bytes, null, 0, [];
    }

    /** The next chunk, or `None` at the end of the body. */
    method ReadChunk() returns (r: Result<Option<seq<Byte>>, ReadError>)
      requires Valid()
      modifies this, source
      ensures Valid()
      ensures match r
              case Ok(Some(chunk)) =>
                chunk != [] && old(Rest()) == chunk + Rest() && delivered == old(delivered) + chunk
              case Ok(None) =>
                Ended() && old(Rest()) == Rest() == [] && delivered == old(delivered)
              case Err(e) =>
                && e == Io && source != null && Fails(source.schedule(old(source.ticks)))
                && Rest() == old(Rest()) && delivered == old(delivered)
      ensures old(Ended()) ==> r == Ok(None)
      ensures old(Healthy()) ==> Healthy()
    {
      if leftover != [] {
        var chunk := leftover;
        leftover := [];
        consumed := consumed + |chunk|;
        delivered := chunk;
        assert source != null ==> first + source.stream[origin..source.pos] == first;
        return Ok(Some(chunk));
      }
      if contentLength.Some? && consumed >= contentLength.value {
        return Ok(None);
      }
      if stream == null {
        return Ok(None);
      }
      r := ReadSocket();
    }

    /** The socket part of `ReadChunk`: everything else has been handed out, and more is wanted. */
    method ReadSocket() returns (r: Result<Option<seq<Byte>>, ReadError>)
      requires Valid() && leftover == [] && stream != null
      requires contentLength.Some? ==> consumed < contentLength.value
      modifies this, source
      ensures Valid()
      ensures match r
              case Ok(Some(chunk)) =>
                chunk != [] && old(Rest()) == chunk + Rest() && delivered == old(delivered) + chunk
              case Ok(None) =>
                Ended() && old(Rest()) == Rest() == [] && delivered == old(delivered)
              case Err(e) =>
                && e == Io && source != null && Fails(source.schedule(old(source.ticks)))
                && Rest() == old(Rest()) && delivered == old(delivered)
      ensures old(Healthy()) ==> Healthy()
    {
      hide Wanted, Rest;
      var remaining := match contentLength
        case Some(cl) => Min(Max(0, cl - consumed), CHUNK)
        case None => CHUNK;
      ghost var p, wanted := stream.pos, Wanted(contentLength, consumed, |stream.stream| - stream.pos);
      RestIsPending();
      assert Rest() == stream.stream[p..p + wanted];
      var outcome := stream.ReadAwait(remaining);
      if outcome.Failed? {
        RestIsPending();
        return Err(Io);
      }
      if outcome.bytes == [] {
        WantedNone(contentLength, consumed);
        stream := null;
        RestIsPending();
        return Ok(None);
      }
      WantedStep(contentLength, consumed, |stream.stream| - p, |outcome.bytes|);
      SliceSplit(stream.stream, origin, p, stream.pos);
      SliceSplit(stream.stream, p, stream.pos, p + wanted);
      Assoc(first, stream.stream[origin..p], outcome.bytes);
      consumed := consumed + |outcome.bytes|;
      delivered := delivered + outcome.bytes;
      RestIsPending();
      return Ok(Some(outcome.bytes));
    }

    /** Nothing lost, nothing twice, nothing past the declared length. */
    ghost predicate Conserved()
      reads this, source
    {
      && consumed == |delivered|
      && (source != null
          ==> (&& origin <= source.pos <= |source.stream|
               && delivered + leftover == first + source.stream[origin..source.pos]
               && (contentLength.Some? ==> source.pos - origin <= Max(0, contentLength.value - |first|))))
    }

    lemma ValidConserved()
      requires Valid()
      ensures Conserved()
    {
      assert source != null && leftover != [] ==> source.stream[origin..source.pos] == [];
    }

    /**
     Any number of `read_chunk` calls: the chunks and what is left make up what there was, and all
     that was ever handed out, with what is left over, is the first bytes and the socket's.
     */
    method ReadChunks(n: nat) returns (chunks: seq<seq<Byte>>)
      requires Valid()
      modifies this, source
      ensures Valid()
      ensures Flatten(chunks) + Rest() == old(Rest())
      ensures delivered == old(delivered) + Flatten(chunks) && Conserved()
    {
      hide Valid, Rest, Pending, Conserved;
      chunks := [];
      for i := 0 to n
        invariant Valid()
        invariant Flatten(chunks) + Rest() == old(Rest())
        invariant delivered == old(delivered) + Flatten(chunks)
      {
        var r := ReadChunk();
        if r.Ok? && r.value.Some? {
          FlattenPush(chunks, r.value.value);
          Assoc(Flatten(chunks), r.value.value, Rest());
          Assoc(old(delivered), Flatten(chunks), r.value.value);
          chunks := chunks + [r.value.value];
        }
      }
      ValidConserved();
    }

    /** The whole of the rest, unless the declared or the actual length exceeds the cap. */
    method Bytes(max: Option<nat>) returns (r: Result<seq<Byte>, ReadError>)
      requires Valid()
      modifies this, source
      ensures Valid()
      ensures r.Ok? ==> r.value == old(Rest()) && Ended()
      ensures r.Ok? && max.Some? ==> |r.value| <= max.value
      ensures r == Err(TooLarge) ==> Exceeds(max, |old(Rest())|, contentLength)
      ensures old(Healthy())
          ==> (r.Err? <==> Exceeds(max, |old(Rest())|, contentLength))
    {
      hide Valid, Rest, Pending;
      if contentLength.Some? && max.Some? && contentLength.value > max.value {
        return Err(TooLarge);
      }
      var buf: seq<Byte> := [];
      while true
        invariant Valid()
        invariant buf + Rest() == old(Rest())
        invariant max.Some? ==> |buf| <= max.value
        invariant old(Healthy()) ==> Healthy()
        decreases |Rest()|
      {
        var next := ReadChunk();
        if next.Err? {
          return Err(next.error);
        }
        if next.value.None? {
          break;
        }
        var chunk := next.value.value;
        Assoc(buf, chunk, Rest());
        if max.Some? && |buf| + |chunk| > max.value {
          return Err(TooLarge);
        }
        buf := buf + chunk;
      }
      return Ok(buf);
    }
  }

  /** The declared or the actual length is over the cap. */
  predicate Exceeds(max: Option<nat>, actual: nat, declared: Option<nat>) {
    max.Some? && (max.value < actual || (declared.Some? && max.value < declared.value))
  }

  lemma SliceSplit(s: seq<Byte>, lo: nat, mid: nat, hi: nat)
    requires lo <= mid <= hi <= |s|
    ensures s[lo..hi] == s[lo..mid] + s[mid..hi]
  {
  }

  lemma FlattenPush(chunks: seq<seq<Byte>>, chunk: seq<Byte>)
    ensures Flatten(chunks + [chunk]) == Flatten(chunks) + chunk
  {
    FlattenAppend(chunks, [chunk]);
    assert Flatten([chunk]) == chunk + Flatten([]) == chunk;
  }
}
