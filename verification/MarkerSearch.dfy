/**
 Finding the end of the headers with vector instructions. Each block is loaded whole, compared
 lane by lane with CR, and only lanes whose mask bit is set are compared with CR LF CR LF. Every
 form returns the least index of the marker.
 */
module MarkerSearch {
  import opened Bytes
  import opened Search

  /** `data.windows(4).position(..)`, behind the length test of the scalar fallback. */
  function FindScalar(data: seq<Byte>): (r: Option<nat>)
    ensures r == Find(data, HEADER_END)
  {
    if |data| < 4 then None else Find(data, HEADER_END)
  }

  predicate BitSet(mask: bv32, lane: nat)
    requires lane < 32
  {
    mask & (1 << lane) != 0
  }

  function SetLane(mask: bv32, lane: nat): bv32
    requires lane < 32
  {
    mask | (1 << lane)
  }

  /** Byte-compare with CR, then one mask bit for each of the first `lanes` lanes. */
  function MoveMask(block: seq<Byte>, lanes: nat): bv32
    requires lanes <= |block| <= 32
  {
    if lanes == 0 then 0
    else if block[lanes - 1] == CR then SetLane(MoveMask(block, lanes - 1), lanes - 1)
    else MoveMask(block, lanes - 1)
  }

  lemma SetBit(mask: bv32, other: nat, lane: nat)
    requires other < 32 && lane < 32
    ensures BitSet(SetLane(mask, other), lane) <==> lane == other || BitSet(mask, lane)
  {
    SetShifted(mask, other, lane);
  }

  lemma SetShifted(mask: bv32, other: nat, lane: nat)
    requires other < 32 && lane < 32
    ensures (mask | (1 << other)) & (1 << lane) != 0 <==> (lane == other || mask & (1 << lane) != 0)
  {
  }

  lemma ClearBit(lane: nat)
    requires lane < 32
    ensures !BitSet(0, lane)
  {
  }

  /** A mask bit is set exactly when its lane holds CR. */
  lemma {:induction false} MaskBits(block: seq<Byte>, lanes: nat, lane: nat)
    requires lanes <= |block| <= 32 && lane < 32
    ensures BitSet(MoveMask(block, lanes), lane) <==> lane < lanes && block[lane] == CR
  {
    hide BitSet, SetLane;
    if lanes > 0 {
      MaskBits(block, lanes - 1, lane);
      SetBit(MoveMask(block, lanes - 1), lanes - 1, lane);
    } else {
      ClearBit(lane);
    }
  }

  /** The mask of a 16-lane compare fits in 16 bits, so the narrowing cast drops nothing. */
  lemma {:induction false} NarrowMask(block: seq<Byte>, lanes: nat)
    requires lanes <= |block| <= 32 && lanes <= 16
    ensures MoveMask(block, lanes) & 0xFFFF_0000 == 0
  {
    hide SetLane;
    if lanes > 0 {
      NarrowMask(block, lanes - 1);
      LowBit(MoveMask(block, lanes - 1), lanes - 1);
    } else {
      assert 0 as bv32 & 0xFFFF_0000 == 0;
    }
  }

  lemma LowBit(mask: bv32, lane: nat)
    requires lane < 16
    ensures mask & 0xFFFF_0000 == 0 ==> SetLane(mask, lane) & 0xFFFF_0000 == 0
  {
  }

  lemma Miss(data: seq<Byte>, i: nat)
    requires !OccursAt(data, HEADER_END, i)
    ensures FindFrom(data, HEADER_END, i) == FindFrom(data, HEADER_END, i + 1)
  {
  }

  /** A lane whose bit is clear begins no marker. */
  lemma LaneMiss(data: seq<Byte>, i: nat, width: nat, lane: nat)
    requires lane < width <= 32 && i + width <= |data|
    requires !BitSet(MoveMask(data[i..i + width], width), lane)
    ensures !OccursAt(data, HEADER_END, i + lane)
  {
    hide BitSet, MoveMask;
    var chunk := data[i..i + width];
    MaskBits(chunk, width, lane);
    assert chunk[lane] == data[i + lane];
  }

  /** No mask bit, no marker begins in the block. */
  lemma {:induction false} EmptyMask(data: seq<Byte>, i: nat, width: nat, n: nat)
    requires n <= width <= 32 && i + width <= |data|
    requires MoveMask(data[i..i + width], width) == 0
    ensures FindFrom(data, HEADER_END, i) == FindFrom(data, HEADER_END, i + n)
  {
    hide BitSet, MoveMask, FindFrom;
    if n > 0 {
      EmptyMask(data, i, width, n - 1);
      ClearBit(n - 1);
      LaneMiss(data, i, width, n - 1);
      Miss(data, i + n - 1);
    }
  }

  /** One block: the first marker that begins in it, which may end beyond it. */
  method ScanBlock(data: seq<Byte>, i: nat, width: nat) returns (r: Option<nat>)
    requires width <= 32 && i + width <= |data|
    ensures r.Some? ==> FindFrom(data, HEADER_END, i) == r
    ensures r.None? ==> FindFrom(data, HEADER_END, i) == FindFrom(data, HEADER_END, i + width)
  {
    hide FindFrom, MoveMask, BitSet;
    var chunk := data[i..i + width];
    var crMask := MoveMask(chunk, width);
    if crMask != 0 {
      for lane := 0 to width
        invariant FindFrom(data, HEADER_END, i) == FindFrom(data, HEADER_END, i + lane)
      {
        FindStep(data, HEADER_END, i + lane);
        if BitSet(crMask, lane) {
          var pos := i + lane;
          if pos + 4 <= |data| && data[pos..pos + 4] == HEADER_END {
            return Some(pos);
          }
        } else {
          LaneMiss(data, i, width, lane);
        }
        Miss(data, i + lane);
      }
    } else {
      EmptyMask(data, i, width, width);
    }
    return None;
  }

  method FindSse2(data: seq<Byte>) returns (r: Option<nat>)
    ensures r == Find(data, HEADER_END)
  {
    hide FindFrom;
    if |data| < 16 {
      return FindScalar(data);
    }
    var i: nat := 0;
    var end := |data| - 15;
    while i < end
      invariant i <= |data|
      invariant Find(data, HEADER_END) == FindFrom(data, HEADER_END, i)
    {
      var found := ScanBlock(data, i, 16);
      if found.Some? {
        return found;
      }
      i := i + 16;
    }
    FindInSuffix(data, HEADER_END, i);
    var tail := FindScalar(data[i..]);
    return match tail { case Some(pos) => Some(pos + i) case None => None };
  }

  method FindAvx2(data: seq<Byte>) returns (r: Option<nat>)
    ensures r == Find(data, HEADER_END)
  {
    hide FindFrom;
    if |data| < 32 {
      r := FindSse2(data);
      return;
    }
    var i: nat := 0;
    var end := |data| - 31;
    while i < end
      invariant i <= |data|
      invariant Find(data, HEADER_END) == FindFrom(data, HEADER_END, i)
    {
      var found := ScanBlock(data, i, 32);
      if found.Some? {
        return found;
      }
      i := i + 32;
    }
    FindInSuffix(data, HEADER_END, i);
    var tail := FindSse2(data[i..]);
    return match tail { case Some(pos) => Some(pos + i) case None => None };
  }

  /** The entry point, for whatever instruction sets the processor reports. */
  method FindHeaderEnd(data: seq<Byte>, avx2: bool, sse2: bool) returns (r: Option<nat>)
    ensures r == Find(data, HEADER_END)
  {
    if avx2 {
      r := FindAvx2(data);
    } else if sse2 {
      r := FindSse2(data);
    } else {
      r := FindScalar(data);
    }
  }

  /** CR LF CR LF stands at `j`. */
  predicate MarkerAt(data: seq<Byte>, j: int) {
    0 <= j <= |data| - 4 && data[j] == 13 && data[j + 1] == 10 && data[j + 2] == 13 && data[j + 3] == 10
  }

  lemma MarkerIs(data: seq<Byte>, j: int)
    ensures MarkerAt(data, j) <==> OccursAt(data, HEADER_END, j)
  {
    if MarkerAt(data, j) {
      assert data[j..j + 4] == [13, 10, 13, 10];
    }
  }

  /** What "least index" means: the marker stands there, and nowhere before. */
  lemma FoundIsLeast(data: seq<Byte>)
    ensures match Find(data, HEADER_END)
            case Some(p) => MarkerAt(data, p) && forall j :: 0 <= j < p ==> !MarkerAt(data, j)
            case None => forall j :: !MarkerAt(data, j)
  {
    hide MarkerAt, OccursAt, FindFrom;
    FindLeast(data, HEADER_END, 0);
    FindOccurs(data, HEADER_END);
    forall j ensures MarkerAt(data, j) <==> OccursAt(data, HEADER_END, j) {
      MarkerIs(data, j);
    }
  }
}
