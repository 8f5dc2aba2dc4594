/** Sending a list of buffers through a stream that may accept any part of each write. */
module VectoredSend {
  import opened Bytes

  datatype SendError = Io | ConnectionClosed

  /** What the stream does at one write: accept up to `n` bytes, or fail. */
  datatype Reply = Accept(n: nat) | Fail

  /** One write as the stream saw it: how much had been sent before, and what was offered. */
  datatype Offer = Offer(at: nat, data: seq<Byte>)

  class Stream {
    const replies: nat -> Reply
    var ticks: nat
    var sent: seq<Byte>
    ghost var offers: seq<Offer>

    /** From write `from` on, every write accepts something. */
    ghost predicate Accepting(from: nat)
    {
      forall t :: from <= t ==> replies(t).Accept? && replies(t).n > 0
    }

    method WriteVectored(bufs: seq<seq<Byte>>) returns (r: Result<nat, SendError>)
      modifies this
      ensures ticks == old(ticks) + 1
      ensures offers == old(offers) + [Offer(|old(sent)|, Flatten(bufs))]
      ensures match replies(old(ticks))
              case Accept(n) =>
                r == Ok(Min(n, |Flatten(bufs)|)) && sent == old(sent) + Flatten(bufs)[..r.value]
              case Fail => r == Err(Io) && sent == old(sent)
    {
      offers := offers + [Offer(|sent|, Flatten(bufs))];
      match replies(ticks) {
        case Accept(n) =>
          var k := Min(n, |Flatten(bufs)|);
          r := Ok(k);
          sent := sent + Flatten(bufs)[..k];
        case Fail =>
          r := Err(Io);
      }
      ticks := ticks + 1;
    }
  }

  /** Every write since `from` offered exactly the part of `data` that was still unsent. */
  ghost predicate OffersUnsent(offers: seq<Offer>, from: nat, base: nat, data: seq<Byte>) {
    forall k :: from <= k < |offers|
      ==> base <= offers[k].at <= base + |data| && offers[k].data == data[offers[k].at - base..]
  }

  /**
   What a send owes its caller: what reached the stream is a prefix of the data, all of it exactly
   when the send succeeds, and every single write was offered just what was still missing.
   */
  ghost predicate Sent(before: seq<Byte>, after: seq<Byte>, data: seq<Byte>, ok: bool) {
    && |before| <= |after| <= |before| + |data|
    && after == before + data[..|after| - |before|]
    && (ok <==> |after| == |before| + |data|)
  }

  /** A send gives up only on its last write, and says why. */
  ghost predicate GivesUp(w: Stream, from: nat, e: SendError)
    reads w
  {
    && from < w.ticks
    && match w.replies(w.ticks - 1)
       case Fail => e == Io
       case Accept(n) => n == 0 && e == ConnectionClosed
  }

  // ----- rebuilding the buffer list

  lemma FlattenStep(bufs: seq<seq<Byte>>, i: nat)
    requires i < |bufs|
    ensures Flatten(bufs[i..]) == bufs[i] + Flatten(bufs[i + 1..])
  {
  }

  lemma DropInto(a: seq<Byte>, b: seq<Byte>, k: nat)
    requires k <= |a| + |b|
    ensures |a| <= k ==> (a + b)[k..] == b[k - |a|..]
    ensures k <= |a| ==> (a + b)[k..] == a[k..] + b
  {
  }

  /** The buffers still to be sent after `written` bytes: an unsent tail, then whole buffers. */
  method RemainingBufs(bufs: seq<seq<Byte>>, written: nat) returns (remaining: seq<seq<Byte>>)
    requires written < |Flatten(bufs)|
    ensures Flatten(remaining) == Flatten(bufs)[written..]
    ensures |remaining| <= |bufs|
  {
    hide Flatten;
    var currentWritten: nat := written;
    var bufIdx: nat := 0;
    assert bufs[0..] == bufs;
    while bufIdx < |bufs| && currentWritten >= |bufs[bufIdx]|
      invariant bufIdx <= |bufs|
      invariant currentWritten < |Flatten(bufs[bufIdx..])|
      invariant Flatten(bufs[bufIdx..])[currentWritten..] == Flatten(bufs)[written..]
    {
      FlattenStep(bufs, bufIdx);
      DropInto(bufs[bufIdx], Flatten(bufs[bufIdx + 1..]), currentWritten);
      currentWritten := currentWritten - |bufs[bufIdx]|;
      bufIdx := bufIdx + 1;
    }
    FlattenEnd(bufs, bufIdx);
    remaining := [];
    if currentWritten > 0 {
      FlattenStep(bufs, bufIdx);
      DropInto(bufs[bufIdx], Flatten(bufs[bufIdx + 1..]), currentWritten);
      remaining := [bufs[bufIdx][currentWritten..]];
      FlattenOne(bufs[bufIdx][currentWritten..]);
      bufIdx := bufIdx + 1;
    } else {
      FlattenNone();
    }
    ghost var head := remaining;
    FlattenAppend(head, bufs[bufIdx..]);
    assert [] + Flatten(bufs[bufIdx..]) == Flatten(bufs[bufIdx..]);
    for k := bufIdx to |bufs|
      invariant remaining == head + bufs[bufIdx..k]
    {
      remaining := remaining + [bufs[k]];
    }
    assert bufs[bufIdx..|bufs|] == bufs[bufIdx..];
  }

  lemma FlattenEnd(bufs: seq<seq<Byte>>, i: nat)
    requires i <= |bufs|
    ensures i == |bufs| ==> Flatten(bufs[i..]) == []
  {
  }

  lemma FlattenOne(buf: seq<Byte>)
    ensures Flatten([buf]) == buf
  {
  }

  lemma FlattenNone()
    ensures Flatten([]) == []
  {
  }

  // ----- the send loops

  method SendVectored(w: Stream, bufs: seq<seq<Byte>>) returns (r: Result<(), SendError>)
    modifies w
    ensures Sent(old(w.sent), w.sent, Flatten(bufs), r.Ok?)
    ensures old(w.offers) <= w.offers && old(w.ticks) <= w.ticks
    ensures w.Accepting(old(w.ticks)) ==> r.Ok?
    ensures r.Err? ==> GivesUp(w, old(w.ticks), r.error)
    ensures OffersUnsent(w.offers, |old(w.offers)|, |old(w.sent)|, Flatten(bufs))
  {
    hide Flatten;
    ghost var data, base := Flatten(bufs), w.sent;
    var totalSize := TotalSize(bufs);
    var written: nat := 0;
    while written < totalSize
      invariant written <= |data|
      invariant w.sent == base + data[..written]
      invariant old(w.offers) <= w.offers && old(w.ticks) <= w.ticks
      invariant OffersUnsent(w.offers, |old(w.offers)|, |base|, data)
      decreases totalSize - written
    {
      var remaining := RemainingBufs(bufs, written);
      var n := w.WriteVectored(remaining);
      if n.Err? {
        return Err(n.error);
      }
      if n.value == 0 {
        return Err(ConnectionClosed);
      }
      TakeMore(base, data, written, n.value);
      written := written + n.value;
    }
    return Ok(());
  }

  lemma TakeMore(base: seq<Byte>, data: seq<Byte>, written: nat, n: nat)
    requires written + n <= |data|
    ensures (base + data[..written]) + data[written..][..n] == base + data[..written + n]
  {
  }

  /** `bufs.iter().map(|b| b.len()).sum()`. */
  method TotalSize(bufs: seq<seq<Byte>>) returns (n: nat)
    ensures n == |Flatten(bufs)|
  {
    n := 0;
    assert bufs[..|bufs|] == bufs;
    for i := 0 to |bufs|
      invariant n == |Flatten(bufs[..i])|
    {
      FlattenPush(bufs, i);
      n := n + |bufs[i]|;
    }
  }

  method SendBytes(w: Stream, bytes: seq<Byte>) returns (r: Result<(), SendError>)
    modifies w
    ensures Sent(old(w.sent), w.sent, bytes, r.Ok?)
    ensures old(w.offers) <= w.offers && old(w.ticks) <= w.ticks
    ensures w.Accepting(old(w.ticks)) ==> r.Ok?
    ensures r.Err? ==> GivesUp(w, old(w.ticks), r.error)
    ensures OffersUnsent(w.offers, |old(w.offers)|, |old(w.sent)|, bytes)
  {
    hide Flatten;
    ghost var base := w.sent;
    var written: nat := 0;
    while written < |bytes|
      invariant written <= |bytes|
      invariant w.sent == base + bytes[..written]
      invariant old(w.offers) <= w.offers && old(w.ticks) <= w.ticks
      invariant OffersUnsent(w.offers, |old(w.offers)|, |base|, bytes)
    {
      FlattenOne(bytes[written..]);
      var n := w.WriteVectored([bytes[written..]]);
      if n.Err? {
        return Err(n.error);
      }
      if n.value == 0 {
        return Err(ConnectionClosed);
      }
      TakeMore(base, bytes, written, n.value);
      written := written + n.value;
    }
    return Ok(());
  }

  // ----- one vectored send against one plain send after another

  lemma SentThrough(before: seq<Byte>, mid: seq<Byte>, after: seq<Byte>, head: seq<Byte>, buf: seq<Byte>,
                    tail: seq<Byte>, ok: bool)
    requires mid == before + head && Sent(mid, after, buf, ok)
    ensures ok ==> after == before + (head + buf)
    ensures !ok ==> Sent(before, after, head + (buf + tail), false)
  {
  }

  method SendEach(w: Stream, bufs: seq<seq<Byte>>) returns (r: Result<(), SendError>)
    modifies w
    ensures Sent(old(w.sent), w.sent, Flatten(bufs), r.Ok?)
    ensures w.Accepting(old(w.ticks)) ==> r.Ok?
    ensures r.Err? ==> GivesUp(w, old(w.ticks), r.error)
  {
    hide Flatten;
    FlattenNone();
    for i := 0 to |bufs|
      invariant w.sent == old(w.sent) + Flatten(bufs[..i])
      invariant old(w.ticks) <= w.ticks
    {
      ghost var mid := w.sent;
      r := SendBytes(w, bufs[i]);
      SentThrough(old(w.sent), mid, w.sent, Flatten(bufs[..i]), bufs[i], Flatten(bufs[i + 1..]), r.Ok?);
      FlattenPush(bufs, i);
      FlattenSplit(bufs, i);
      if r.Err? {
        return;
      }
    }
    assert bufs[..|bufs|] == bufs;
    assert Flatten(bufs)[..|Flatten(bufs)|] == Flatten(bufs);
    return Ok(());
  }

  lemma FlattenPush(bufs: seq<seq<Byte>>, i: nat)
    requires i < |bufs|
    ensures Flatten(bufs[..i + 1]) == Flatten(bufs[..i]) + bufs[i]
  {
    hide Flatten;
    assert bufs[..i + 1] == bufs[..i] + [bufs[i]];
    FlattenAppend(bufs[..i], [bufs[i]]);
    FlattenOne(bufs[i]);
  }

  lemma FlattenSplit(bufs: seq<seq<Byte>>, i: nat)
    requires i < |bufs|
    ensures Flatten(bufs) == Flatten(bufs[..i]) + (bufs[i] + Flatten(bufs[i + 1..]))
  {
    hide Flatten;
    assert bufs == bufs[..i] + bufs[i..];
    FlattenStep(bufs, i);
    FlattenAppend(bufs[..i], bufs[i..]);
  }

  /** One vectored send and consecutive plain sends put the same bytes on the wire. */
  method EitherWay(a: Stream, b: Stream, bufs: seq<seq<Byte>>)
    returns (vectored: Result<(), SendError>, plain: Result<(), SendError>)
    requires a != b && a.sent == b.sent
    modifies a, b
    ensures a.Accepting(old(a.ticks)) ==> vectored.Ok?
    ensures b.Accepting(old(b.ticks)) ==> plain.Ok?
    ensures vectored.Ok? && plain.Ok? ==> a.sent == b.sent == old(a.sent) + Flatten(bufs)
    ensures a.sent <= old(a.sent) + Flatten(bufs) && b.sent <= old(a.sent) + Flatten(bufs)
  {
    vectored := SendVectored(a, bufs);
    plain := SendEach(b, bufs);
    assert Flatten(bufs)[..|Flatten(bufs)|] == Flatten(bufs);
  }
}
