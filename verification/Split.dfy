/**
 Cutting a multipart body at its delimiter. `SplitBytes` skips past each match; the zero-copy
 `SplitBytesArena` tests every position. The two agree on every input long enough to hold the
 delimiter exactly when no proper suffix of the delimiter is also a prefix of it.
 */
module Split {
  import opened Bytes
  import opened Search

  /** What follows the last delimiter of a well-formed multipart body. */
  const CLOSING: seq<Byte> := [45, 45, 13, 10]

  /** A slice of the arena: the bytes at [lo, hi). */
  datatype Span = Span(lo: nat, hi: nat)

  predicate Within(span: Span, s: seq<Byte>) {
    span.lo <= span.hi <= |s|
  }

  function Slice(s: seq<Byte>, span: Span): seq<Byte>
    requires Within(span, s)
  {
    s[span.lo..span.hi]
  }

  function Slices(s: seq<Byte>, spans: seq<Span>): (r: seq<seq<Byte>>)
    requires forall k :: 0 <= k < |spans| ==> Within(spans[k], s)
    ensures |r| == |spans|
    ensures forall k :: 0 <= k < |spans| ==> r[k] == Slice(s, spans[k])
  {
    seq(|spans|, k requires 0 <= k < |spans| => Slice(s, spans[k]))
  }

  function LastPart(piece: seq<Byte>): seq<seq<Byte>> {
    if piece == [] || piece == CLOSING then [] else [piece]
  }

  /** The pieces that are handed on: not the empty ones, and not a final closing mark. */
  function Kept(ps: seq<seq<Byte>>): seq<seq<Byte>>
    requires ps != []
  {
    if |ps| == 1 then LastPart(ps[0])
    else (if ps[0] == [] then [] else [ps[0]]) + Kept(ps[1..])
  }

  /** The parts between the leftmost occurrences of `d`. */
  function Parts(s: seq<Byte>, d: seq<Byte>): seq<seq<Byte>> {
    if d == [] || |s| < |d| then [] else Kept(Pieces(s, d))
  }

  /** Those of them that begin at or after `start`. */
  function PartsFrom(s: seq<Byte>, d: seq<Byte>, start: nat): seq<seq<Byte>>
    requires d != [] && start <= |s|
    decreases |s| - start
  {
    match FindFrom(s, d, start)
    case None => LastPart(s[start..])
    case Some(i) =>
      var rest := PartsFrom(s, d, i + |d|);
      if start == i then rest else [s[start..i]] + rest
  }

  method SplitBytes(s: seq<Byte>, delimiter: seq<Byte>) returns (result: seq<seq<Byte>>)
    ensures result == Parts(s, delimiter)
  {
    hide FindFrom, OccursAt, PartsFrom;
    result := [];
    if delimiter == [] || |s| < |delimiter| {
      return;
    }
    var start: nat, i: nat := 0, 0;
    var end := |s| - |delimiter|;
    PartsFromStart(s, delimiter);
    while i <= end
      invariant start <= i <= |s|
      invariant FindFrom(s, delimiter, start) == FindFrom(s, delimiter, i)
      invariant result + PartsFrom(s, delimiter, start) == Parts(s, delimiter)
    {
      FindStep(s, delimiter, i);
      if OccursAt(s, delimiter, i) {
        CutStep(s, delimiter, start, i, result);
        var part := s[start..i];
        if |part| > 0 {
          result := result + [part];
        }
        i := i + |delimiter|;
        start := i;
      } else {
        i := i + 1;
      }
    }
    FindStep(s, delimiter, i);
    LastStep(s, delimiter, start);
    var last := s[start..];
    if last != [] && last != CLOSING {
      result := result + [last];
    }
  }

  lemma LastStep(s: seq<Byte>, d: seq<Byte>, start: nat)
    requires d != [] && start <= |s|
    requires FindFrom(s, d, start).None?
    ensures PartsFrom(s, d, start) == LastPart(s[start..])
  {
  }

  /** Pushing one non-empty part keeps what has been and what will be collected. */
  lemma CutStep(s: seq<Byte>, d: seq<Byte>, start: nat, i: nat, result: seq<seq<Byte>>)
    requires d != [] && start <= |s|
    requires FindFrom(s, d, start) == Some(i)
    ensures start == i ==> PartsFrom(s, d, start) == PartsFrom(s, d, i + |d|)
    ensures start < i
        ==> result + PartsFrom(s, d, start) == (result + [s[start..i]]) + PartsFrom(s, d, i + |d|)
  {
    Assoc(result, [s[start..i]], PartsFrom(s, d, i + |d|));
  }

  lemma KeptStep(piece: seq<Byte>, rest: seq<seq<Byte>>)
    requires rest != []
    ensures Kept([piece] + rest) == if piece == [] then Kept(rest) else [piece] + Kept(rest)
  {
  }

  lemma {:induction false} PartsFromKept(s: seq<Byte>, d: seq<Byte>, start: nat)
    requires d != [] && start <= |s|
    ensures PartsFrom(s, d, start) == Kept(PiecesFrom(s, d, start))
    decreases |s| - start
  {
    hide FindFrom, OccursAt, Kept;
    match FindFrom(s, d, start)
    case None =>
      KeptOne(s[start..]);
    case Some(i) =>
      PartsFromKept(s, d, i + |d|);
      KeptStep(s[start..i], PiecesFrom(s, d, i + |d|));
  }

  /** Those of the pieces that are not empty. */
  function NonEmpty(ps: seq<seq<Byte>>): seq<seq<Byte>> {
    if ps == [] then []
    else NonEmpty(ps[..|ps| - 1]) + if ps[|ps| - 1] == [] then [] else [ps[|ps| - 1]]
  }

  /** A final `--` CR LF is dropped, one before the end is not, and every empty piece is. */
  lemma {:induction false} KeptIs(ps: seq<seq<Byte>>)
    requires ps != []
    ensures var n := |ps| - 1;
            Kept(ps) == NonEmpty(if ps[n] == [45, 45, 13, 10] then ps[..n] else ps)
    decreases |ps|
  {
    var n := |ps| - 1;
    if n == 0 {
      assert ps[..0] == [];
    } else {
      KeptIs(ps[1..]);
      assert ps[1..][..n - 1] == ps[..n][1..];
      NonEmptyStep(if ps[n] == [45, 45, 13, 10] then ps[..n] else ps);
    }
  }

  lemma {:induction false} NonEmptyStep(ps: seq<seq<Byte>>)
    requires ps != []
    ensures NonEmpty(ps) == (if ps[0] == [] then [] else [ps[0]]) + NonEmpty(ps[1..])
    decreases |ps|
  {
    if |ps| > 1 {
      NonEmptyStep(ps[..|ps| - 1]);
      assert ps[..|ps| - 1][1..] == ps[1..][..|ps| - 2];
    }
  }

  lemma KeptOne(piece: seq<Byte>)
    ensures Kept([piece]) == LastPart(piece)
  {
  }

  lemma PartsFromStart(s: seq<Byte>, d: seq<Byte>)
    requires d != [] && |d| <= |s|
    ensures Parts(s, d) == PartsFrom(s, d, 0)
  {
    PartsFromKept(s, d, 0);
    PiecesFromSuffix(s, d, 0);
    assert s[0..] == s;
  }

  /** The spans collected from position `i` on, when the current piece began at `start`. */
  function ArenaSpans(s: seq<Byte>, d: seq<Byte>, i: nat, start: nat): (spans: seq<Span>)
    ensures forall k :: 0 <= k < |spans| ==> Within(spans[k], s)
    decreases |s| - i
  {
    if i >= |s| then
      if start < |s| && s[start..] != CLOSING then [Span(start, |s|)] else []
    else if OccursAt(s, d, i) then
      (if start < i then [Span(start, i)] else []) + ArenaSpans(s, d, i + 1, i + |d|)
    else
      ArenaSpans(s, d, i + 1, start)
  }

  function ArenaParts(s: seq<Byte>, d: seq<Byte>): seq<seq<Byte>> {
    Slices(s, ArenaSpans(s, d, 0, 0))
  }

  method SplitBytesArena(s: seq<Byte>, delimiter: seq<Byte>) returns (result: seq<Span>)
    ensures result == ArenaSpans(s, delimiter, 0, 0)
    ensures forall k :: 0 <= k < |result| ==> Within(result[k], s)
    ensures Slices(s, result) == ArenaParts(s, delimiter)
  {
    hide ArenaSpans;
    result := [];
    var start: nat := 0;
    for i := 0 to |s|
      invariant result + ArenaSpans(s, delimiter, i, start) == ArenaSpans(s, delimiter, 0, 0)
    {
      ArenaStep(s, delimiter, i, start);
      Assoc(result, [Span(start, i)], ArenaSpans(s, delimiter, i + 1, i + |delimiter|));
      if i + |delimiter| <= |s| && s[i..i + |delimiter|] == delimiter {
        if start < i {
          result := result + [Span(start, i)];
        }
        start := i + |delimiter|;
      }
    }
    ArenaLast(s, delimiter, |s|, start);
    if start < |s| && s[start..] != CLOSING {
      result := result + [Span(start, |s|)];
    }
  }

  lemma ArenaStep(s: seq<Byte>, d: seq<Byte>, i: nat, start: nat)
    ensures i < |s| && OccursAt(s, d, i)
        ==> ArenaSpans(s, d, i, start)
            == (if start < i then [Span(start, i)] else []) + ArenaSpans(s, d, i + 1, i + |d|)
    ensures i < |s| && !OccursAt(s, d, i) ==> ArenaSpans(s, d, i, start) == ArenaSpans(s, d, i + 1, start)
  {
  }

  lemma ArenaLast(s: seq<Byte>, d: seq<Byte>, i: nat, start: nat)
    requires i >= |s|
    ensures ArenaSpans(s, d, i, start) == if start < |s| && s[start..] != CLOSING then [Span(start, |s|)] else []
  {
  }

  // ----- when the two agree

  /** `d` shifted by `k` overlaps itself. */
  predicate Border(d: seq<Byte>, k: nat) {
    0 < k < |d| && d[k..] == d[..|d| - k]
  }

  ghost predicate Bordered(d: seq<Byte>) {
    exists k :: Border(d, k)
  }

  /** Two overlapping occurrences show a border. */
  lemma OverlapIsBorder(s: seq<Byte>, d: seq<Byte>, i: nat, j: nat)
    requires i < j < i + |d|
    requires OccursAt(s, d, i) && OccursAt(s, d, j)
    ensures Border(d, j - i)
  {
  }

  lemma NoOverlap(s: seq<Byte>, d: seq<Byte>, i: nat)
    requires !Bordered(d) && OccursAt(s, d, i)
    ensures forall j :: i < j < i + |d| ==> !OccursAt(s, d, j)
  {
    hide OccursAt, Border;
    forall j | i < j < i + |d| ensures !OccursAt(s, d, j) {
      if OccursAt(s, d, j) {
        OverlapIsBorder(s, d, i, j);
      }
    }
  }

  lemma SlicesStep(s: seq<Byte>, start: nat, i: nat, rest: seq<Span>)
    requires start <= i <= |s|
    requires forall k :: 0 <= k < |rest| ==> Within(rest[k], s)
    ensures var spans := (if start < i then [Span(start, i)] else []) + rest;
            && (forall k :: 0 <= k < |spans| ==> Within(spans[k], s))
            && Slices(s, spans) == if start == i then Slices(s, rest) else [s[start..i]] + Slices(s, rest)
  {
  }

  /** The every-position scan of an unbordered delimiter finds the leftmost pieces. */
  lemma {:induction false} ArenaIsKept(s: seq<Byte>, d: seq<Byte>, i: nat, start: nat)
    requires d != [] && !Bordered(d)
    requires start <= |s|
    requires forall j :: start <= j < i ==> !OccursAt(s, d, j)
    requires forall j :: i <= j < start ==> !OccursAt(s, d, j)
    ensures Slices(s, ArenaSpans(s, d, i, start)) == PartsFrom(s, d, start)
    decreases |s| - i
  {
    hide OccursAt, FindFrom, Slices, PartsFrom, ArenaSpans, Bordered;
    ArenaStep(s, d, i, start);
    if i >= |s| {
      NoneLeft(s, d, i, start);
    } else if OccursAt(s, d, i) {
      FindFromIs(s, d, start, i);
      NoOverlap(s, d, i);
      ArenaIsKept(s, d, i + 1, i + |d|);
      SlicesStep(s, start, i, ArenaSpans(s, d, i + 1, i + |d|));
      PartsStep(s, d, start, i);
    } else {
      ArenaIsKept(s, d, i + 1, start);
    }
  }

  lemma PartsStep(s: seq<Byte>, d: seq<Byte>, start: nat, i: nat)
    requires d != [] && start <= |s| && FindFrom(s, d, start) == Some(i)
    ensures PartsFrom(s, d, start)
         == if start == i then PartsFrom(s, d, i + |d|) else [s[start..i]] + PartsFrom(s, d, i + |d|)
  {
  }

  lemma NoneLeft(s: seq<Byte>, d: seq<Byte>, i: nat, start: nat)
    requires d != [] && start <= |s| <= i
    requires forall j :: start <= j < i ==> !OccursAt(s, d, j)
    ensures Slices(s, ArenaSpans(s, d, i, start)) == PartsFrom(s, d, start)
  {
    assert FindFrom(s, d, start).None?;
    assert s[start..|s|] == s[start..];
  }

  /** Same slices, in the same order, for every delimiter that cannot overlap itself. */
  lemma UnborderedSplitsAgree(s: seq<Byte>, d: seq<Byte>)
    requires d != [] && |d| <= |s|
    requires !Bordered(d)
    ensures ArenaParts(s, d) == Parts(s, d)
  {
    ArenaIsKept(s, d, 0, 0);
    PartsFromStart(s, d);
  }

  /** Below the delimiter's length only the zero-copy form returns anything. */
  lemma ShortInput(s: seq<Byte>, d: seq<Byte>)
    requires |s| < |d|
    ensures Parts(s, d) == []
    ensures ArenaParts(s, d) == if s == [] || s == CLOSING then [] else [s]
  {
    ArenaNoMatch(s, d, 0);
    assert s[0..] == s[0..|s|] == s;
  }

  lemma {:induction false} ArenaNoMatch(s: seq<Byte>, d: seq<Byte>, i: nat)
    requires forall j :: i <= j ==> !OccursAt(s, d, j)
    ensures ArenaSpans(s, d, i, 0) == if |s| > 0 && s[0..] != CLOSING then [Span(0, |s|)] else []
    decreases |s| - i
  {
    if i < |s| {
      ArenaNoMatch(s, d, i + 1);
    }
  }

  /** The two occurrences of a bordered delimiter laid over each other, and one byte more. */
  function Overlap(d: seq<Byte>, k: nat, tail: seq<Byte>): (s: seq<Byte>)
    requires k <= |d|
    ensures |s| == k + |d| + |tail|
  {
    d[..k] + d + tail
  }

  lemma OverlapRest(d: seq<Byte>, k: nat, tail: seq<Byte>)
    requires Border(d, k)
    requires tail == [] || (|tail| == 1 && tail[0] != d[|d| - 1])
    ensures !Occurs(d[|d| - k..] + tail, d)
  {
  }

  /** On two overlapping delimiters the skipping scan hands on what follows the first one. */
  lemma OverlapParts(d: seq<Byte>, k: nat, tail: seq<Byte>)
    requires Border(d, k)
    requires tail == [] || (|tail| == 1 && tail[0] != d[|d| - 1])
    ensures Parts(Overlap(d, k, tail), d) == LastPart(d[|d| - k..] + tail)
  {
    var s := Overlap(d, k, tail);
    OverlapHead(d, k, tail);
    assert s[0..] == s;
    FindIs(s, d, 0);
    assert s[|d|..] == d[|d| - k..] + tail;
    var rest := s[|d|..];
    OverlapRest(d, k, tail);
    assert Pieces(rest, d) == [rest];
    assert s[..0] == [];
    assert Pieces(s, d) == [[]] + [rest];
    KeptStep([], [rest]);
  }

  /** A border lays the delimiter over the front of its overlap, and again `k` bytes on. */
  lemma OverlapHead(d: seq<Byte>, k: nat, tail: seq<Byte>)
    requires Border(d, k)
    ensures OccursAt(Overlap(d, k, tail), d, 0)
    ensures OccursAt(Overlap(d, k, tail), d, k)
  {
  }

  /** Past its second occurrence the overlap holds no further delimiter. */
  lemma OverlapEnds(d: seq<Byte>, k: nat, tail: seq<Byte>, i: nat)
    requires Border(d, k) && k < i
    requires tail == [] || (|tail| == 1 && tail[0] != d[|d| - 1])
    ensures !OccursAt(Overlap(d, k, tail), d, i)
  {
  }

  lemma OverlapTail(d: seq<Byte>, k: nat, tail: seq<Byte>)
    requires Border(d, k)
    ensures Overlap(d, k, tail)[|d| + k..] == tail
    ensures |tail| <= 1 ==> tail != CLOSING
  {
  }

  /** The every-position scan restarts behind the last overlapping match. */
  lemma {:induction false} OverlapArena(d: seq<Byte>, k: nat, tail: seq<Byte>, i: nat, start: nat)
    requires Border(d, k)
    requires tail == [] || (|tail| == 1 && tail[0] != d[|d| - 1])
    requires (i == 0 && start == 0) || (0 < i <= k && |d| <= start <= |d| + k)
          || (i > k && start == |d| + k)
    ensures var s := Overlap(d, k, tail);
            ArenaSpans(s, d, i, start) == if tail == [] then [] else [Span(|d| + k, |s|)]
    decreases |d| + k + 2 - i
  {
    hide Overlap, OccursAt, ArenaSpans;
    var s := Overlap(d, k, tail);
    ArenaStep(s, d, i, start);
    ArenaLast(s, d, Max(i, |s|), start);
    if i >= |s| {
      OverlapTail(d, k, tail);
    } else {
      if i <= k {
        OverlapHead(d, k, tail);
      } else {
        OverlapEnds(d, k, tail, i);
      }
      OverlapArena(d, k, tail, i + 1, if OccursAt(s, d, i) then i + |d| else start);
    }
  }

  /** A bordered delimiter splits some input in two different ways. */
  lemma BorderedSplitsDiffer(d: seq<Byte>, k: nat) returns (s: seq<Byte>)
    requires Border(d, k)
    ensures |s| >= |d| && ArenaParts(s, d) != Parts(s, d)
  {
    hide Parts, ArenaSpans, Overlap, Border, Slices;
    BorderIs(d, k);
    var rest := d[|d| - k..];
    var tail: seq<Byte> := [];
    if rest == CLOSING {
      tail := [88];
      assert (rest + tail)[4] == 88;
    }
    s := Overlap(d, k, tail);
    OverlapParts(d, k, tail);
    OverlapArena(d, k, tail, 0, 0);
    OverlapTail(d, k, tail);
    TailSlice(s, |d| + k, tail);
    assert |rest + tail| == k + |tail| && rest + tail != CLOSING;
  }

  lemma BorderIs(d: seq<Byte>, k: nat)
    ensures Border(d, k) ==> 0 < k < |d|
  {
  }

  lemma TailSlice(s: seq<Byte>, start: nat, tail: seq<Byte>)
    requires start <= |s| && s[start..] == tail
    ensures Slices(s, [Span(start, |s|)]) == [tail] && Slices(s, []) == []
  {
    assert s[start..|s|] == tail;
  }

  /** The zero-copy split is the plain one on all long enough inputs iff its delimiter is unbordered. */
  lemma SplitsAgreeIff(d: seq<Byte>)
    requires d != []
    ensures (forall s :: |s| >= |d| ==> ArenaParts(s, d) == Parts(s, d)) <==> !Bordered(d)
  {
    if k :| Border(d, k) {
      var s := BorderedSplitsDiffer(d, k);
    } else {
      forall s | |s| >= |d| ensures ArenaParts(s, d) == Parts(s, d) {
        UnborderedSplitsAgree(s, d);
      }
    }
  }

  // ----- header and body of one part

  /** The bytes before the first CR LF CR LF and those after it; all header when there is none. */
  function HeaderBody(s: seq<Byte>): (seq<Byte>, seq<Byte>) {
    match Find(s, HEADER_END)
    case Some(p) => (s[..p], s[p + 4..])
    case None => (s, [])
  }

  /** Header and body, with the first empty line between them, are the part again. */
  lemma HeaderBodyIs(s: seq<Byte>)
    ensures var (header, body) := HeaderBody(s);
            if Occurs(s, [13, 10, 13, 10]) then
              && s == header + [13, 10, 13, 10] + body
              && forall j :: 0 <= j < |header| ==> !OccursAt(s, [13, 10, 13, 10], j)
            else header == s && body == []
  {
    FindOccurs(s, HEADER_END);
    FindLeast(s, HEADER_END, 0);
  }

  method SplitHeaderBodyArena(s: seq<Byte>) returns (header: Span, body: Span)
    ensures Within(header, s) && Within(body, s)
    ensures (Slice(s, header), Slice(s, body)) == HeaderBody(s)
    ensures header.lo == 0 && body.hi == |s|
  {
    for i := 0 to |s|
      invariant forall j :: 0 <= j < i ==> !OccursAt(s, HEADER_END, j)
    {
      if i + 4 <= |s| && s[i..i + 4] == HEADER_END {
        FindIs(s, HEADER_END, i);
        return Span(0, i), Span(i + 4, |s|);
      }
    }
    assert !Occurs(s, HEADER_END);
    assert s[0..|s|] == s && s[|s|..|s|] == [];
    return Span(0, |s|), Span(|s|, |s|);
  }
}
