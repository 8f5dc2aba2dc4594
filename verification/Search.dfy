/** Searching a byte string for a marker, and cutting it at every leftmost occurrence. */
module Search {
  import opened Bytes

  predicate OccursAt(s: seq<Byte>, d: seq<Byte>, i: int) {
    0 <= i <= |s| - |d| && s[i..i + |d|] == d
  }

  ghost predicate Occurs(s: seq<Byte>, d: seq<Byte>) {
    exists i :: OccursAt(s, d, i)
  }

  /** The least occurrence of `d` in `s` at or after `from`. */
  function FindFrom(s: seq<Byte>, d: seq<Byte>, from: nat): (r: Option<nat>)
    ensures r.Some? ==> from <= r.value <= |s| - |d| && OccursAt(s, d, r.value)
    decreases |s| - from
  {
    if from + |d| > |s| then None
    else if OccursAt(s, d, from) then Some(from)
    else FindFrom(s, d, from + 1)
  }

  /** One step of the scan: the marker is here, or it is looked for one position on. */
  lemma FindStep(s: seq<Byte>, d: seq<Byte>, from: nat)
    ensures FindFrom(s, d, from)
         == if from + |d| > |s| then None
            else if OccursAt(s, d, from) then Some(from)
            else FindFrom(s, d, from + 1)
  {
  }

  /** Nothing occurs before the position found, and nothing at all when none is found. */
  lemma {:induction false} FindLeast(s: seq<Byte>, d: seq<Byte>, from: nat)
    ensures forall j :: from <= j && OccursAt(s, d, j)
              ==> FindFrom(s, d, from).Some? && FindFrom(s, d, from).value <= j
    decreases |s| - from
  {
    if from + |d| <= |s| && !OccursAt(s, d, from) {
      FindLeast(s, d, from + 1);
    }
  }

  /** The least occurrence of `d` in `s`. */
  function Find(s: seq<Byte>, d: seq<Byte>): (r: Option<nat>)
    ensures r.Some? ==> r.value <= |s| - |d| && OccursAt(s, d, r.value)
  {
    FindFrom(s, d, 0)
  }

  lemma FindOccurs(s: seq<Byte>, d: seq<Byte>)
    ensures Find(s, d).Some? <==> Occurs(s, d)
  {
    FindLeast(s, d, 0);
  }

  /** Where an occurrence lies inside a prefix, the rest of the string does not matter. */
  lemma OccursInPrefix(s: seq<Byte>, t: seq<Byte>, d: seq<Byte>, i: int)
    ensures i + |d| <= |s| ==> (OccursAt(s + t, d, i) <==> OccursAt(s, d, i))
  {
  }

  /** A position in the suffix of a string is that position shifted. */
  lemma OccursInSuffix(s: seq<Byte>, d: seq<Byte>, from: nat, i: nat)
    requires from <= |s|
    ensures OccursAt(s[from..], d, i) <==> OccursAt(s, d, from + i)
  {
  }

  /** An occurrence with none before it is what `Find` returns. */
  lemma FindIs(s: seq<Byte>, d: seq<Byte>, i: nat)
    requires OccursAt(s, d, i)
    requires forall j :: 0 <= j < i ==> !OccursAt(s, d, j)
    ensures Find(s, d) == Some(i)
  {
    FindLeast(s, d, 0);
  }

  lemma FindFromIs(s: seq<Byte>, d: seq<Byte>, from: nat, i: nat)
    requires from <= i && OccursAt(s, d, i)
    requires forall j :: from <= j < i ==> !OccursAt(s, d, j)
    ensures FindFrom(s, d, from) == Some(i)
  {
    FindLeast(s, d, from);
  }

  /** Appending to a string does not move its first marker. */
  lemma FindInPrefix(s: seq<Byte>, t: seq<Byte>, d: seq<Byte>)
    requires Find(s, d).Some?
    ensures Find(s + t, d) == Find(s, d)
  {
    var i := Find(s, d).value;
    FindLeast(s, d, 0);
    OccursInPrefix(s, t, d, i);
    forall j | 0 <= j < i ensures !OccursAt(s + t, d, j) {
      OccursInPrefix(s, t, d, j);
    }
    FindIs(s + t, d, i);
  }

  /** Searching a suffix is searching the whole from that point. */
  lemma FindInSuffix(s: seq<Byte>, d: seq<Byte>, from: nat)
    requires from <= |s|
    ensures FindFrom(s, d, from)
         == match Find(s[from..], d) { case None => None case Some(i) => Some(from + i) }
  {
    FindLeast(s[from..], d, 0);
    match Find(s[from..], d) {
      case Some(i) =>
        OccursInSuffix(s, d, from, i);
        forall j | from <= j < from + i ensures !OccursAt(s, d, j) {
          OccursInSuffix(s, d, from, j - from);
        }
        FindFromIs(s, d, from, from + i);
      case None =>
        if FindFrom(s, d, from).Some? {
          OccursInSuffix(s, d, from, FindFrom(s, d, from).value - from);
          assert false;
        }
    }
  }

  lemma {:induction false} FindSkip(s: seq<Byte>, d: seq<Byte>, from: nat, i: nat)
    requires from <= i <= |s|
    requires forall j :: from <= j < i ==> !OccursAt(s, d, j)
    ensures FindFrom(s, d, from) == FindFrom(s, d, i)
    decreases i - from
  {
    if from < i {
      FindSkip(s, d, from + 1, i);
    }
  }

  /** Cut `s` at every leftmost, non-overlapping occurrence of `d` (as `str::split` does). */
  function Pieces(s: seq<Byte>, d: seq<Byte>): (ps: seq<seq<Byte>>)
    requires d != []
    ensures |ps| > 0
    decreases |s|
  {
    match Find(s, d)
    case None => [s]
    case Some(i) => [s[..i]] + Pieces(s[i + |d|..], d)
  }

  /** The same cuts, found from position `from` on without copying the rest of the string. */
  function PiecesFrom(s: seq<Byte>, d: seq<Byte>, from: nat): (ps: seq<seq<Byte>>)
    requires d != [] && from <= |s|
    ensures |ps| > 0
    decreases |s| - from
  {
    match FindFrom(s, d, from)
    case None => [s[from..]]
    case Some(i) => [s[from..i]] + PiecesFrom(s, d, i + |d|)
  }

  lemma PiecesCut(s: seq<Byte>, d: seq<Byte>, m: nat)
    requires d != [] && Find(s, d) == Some(m)
    ensures Pieces(s, d) == [s[..m]] + Pieces(s[m + |d|..], d)
  {
  }

  lemma PiecesWhole(s: seq<Byte>, d: seq<Byte>)
    requires d != [] && Find(s, d).None?
    ensures Pieces(s, d) == [s]
  {
  }

  lemma SliceOfSuffix(s: seq<Byte>, from: nat, m: nat, k: nat)
    requires from + m + k <= |s|
    ensures s[from..][..m] == s[from..from + m]
    ensures s[from..][m + k..] == s[from + m + k..]
  {
  }

  lemma {:induction false} PiecesFromSuffix(s: seq<Byte>, d: seq<Byte>, from: nat)
    requires d != [] && from <= |s|
    ensures PiecesFrom(s, d, from) == Pieces(s[from..], d)
    decreases |s| - from
  {
    hide Pieces, FindFrom;
    FindInSuffix(s, d, from);
    match Find(s[from..], d)
    case None =>
      PiecesWhole(s[from..], d);
    case Some(m) =>
      var i := from + m;
      PiecesFromSuffix(s, d, i + |d|);
      SliceOfSuffix(s, from, m, |d|);
      PiecesCut(s[from..], d, m);
      assert PiecesFrom(s, d, from) == [s[from..i]] + PiecesFrom(s, d, i + |d|);
  }

  function Join(ps: seq<seq<Byte>>, d: seq<Byte>): seq<Byte>
    requires ps != []
  {
    if |ps| == 1 then ps[0] else ps[0] + d + Join(ps[1..], d)
  }

  /** Every piece but the last is followed by the first delimiter; the last one has none. */
  ghost predicate Leftmost(ps: seq<seq<Byte>>, d: seq<Byte>)
    requires d != []
  {
    && ps != []
    && (forall k :: 0 <= k < |ps| - 1 ==> Find(ps[k] + d, d) == Some(|ps[k]|))
    && !Occurs(ps[|ps| - 1], d)
  }

  /** The first cut of a string: what precedes it is followed by its own first delimiter. */
  lemma FirstCut(s: seq<Byte>, d: seq<Byte>, i: nat)
    requires Find(s, d) == Some(i)
    ensures s == s[..i] + d + s[i + |d|..]
    ensures Find(s[..i] + d, d) == Some(i)
  {
    var head, tail := s[..i] + d, s[i + |d|..];
    assert s == head + tail;
    FindLeast(s, d, 0);
    OccursInPrefix(head, tail, d, i);
    forall j | 0 <= j < i ensures !OccursAt(head, d, j) {
      OccursInPrefix(head, tail, d, j);
    }
    FindIs(head, d, i);
  }

  /** Cutting loses nothing, and cuts leftmost. */
  lemma {:induction false} PiecesJoin(s: seq<Byte>, d: seq<Byte>)
    requires d != []
    ensures Join(Pieces(s, d), d) == s
    ensures Leftmost(Pieces(s, d), d)
    decreases |s|
  {
    FindOccurs(s, d);
    match Find(s, d)
    case None =>
    case Some(i) =>
      PiecesJoin(s[i + |d|..], d);
      FirstCut(s, d, i);
      LeftmostStep(s[..i], Pieces(s[i + |d|..], d), d);
  }

  lemma LeftmostStep(piece: seq<Byte>, rest: seq<seq<Byte>>, d: seq<Byte>)
    requires d != [] && Leftmost(rest, d)
    requires Find(piece + d, d) == Some(|piece|)
    ensures Leftmost([piece] + rest, d)
    ensures Join([piece] + rest, d) == piece + d + Join(rest, d)
  {
  }

  /** One cut: a piece whose first following delimiter is the next thing in the string. */
  lemma PiecesStep(c: seq<Byte>, d: seq<Byte>, t: seq<Byte>)
    requires d != []
    requires Find(c + d, d) == Some(|c|)
    ensures Pieces(c + d + t, d) == [c] + Pieces(t, d)
  {
    FindInPrefix(c + d, t, d);
    assert (c + d + t)[..|c|] == c;
    assert (c + d + t)[|c| + |d|..] == t;
  }

  /** The leftmost decomposition is the only one. */
  lemma {:induction false} PiecesUnique(ps: seq<seq<Byte>>, d: seq<Byte>)
    requires d != []
    requires Leftmost(ps, d)
    ensures Pieces(Join(ps, d), d) == ps
  {
    FindOccurs(ps[|ps| - 1], d);
    if |ps| > 1 {
      var rest := ps[1..];
      assert forall k :: 0 <= k < |rest| ==> rest[k] == ps[k + 1];
      PiecesUnique(rest, d);
      assert Find(ps[0] + d, d) == Some(|ps[0]|);
      PiecesStep(ps[0], d, Join(rest, d));
      assert ps == [ps[0]] + rest;
    }
  }

  /** A marker with a byte that the string does not hold cannot occur in it. */
  lemma AbsentByte(s: seq<Byte>, d: seq<Byte>, x: Byte)
    requires x in d && x !in s
    ensures !Occurs(s, d)
  {
  }

  lemma HeldByte(s: seq<Byte>, d: seq<Byte>, i: nat, k: nat)
    requires OccursAt(s, d, i) && i <= k < i + |d|
    ensures s[k] in d
  {
  }

  /** A byte that a marker does not hold keeps it to one side. */
  lemma Barrier(a: seq<Byte>, x: Byte, b: seq<Byte>, d: seq<Byte>)
    requires x !in d
    ensures Occurs(a + [x] + b, d) ==> Occurs(a, d) || Occurs(b, d)
  {
    var s := a + [x] + b;
    if i :| OccursAt(s, d, i) {
      if i + |d| <= |a| {
        OccursInPrefix(a, [x] + b, d, i);
        assert a + ([x] + b) == s;
      } else if i > |a| {
        OccursInSuffix(s, d, |a| + 1, i - |a| - 1);
        assert s[|a| + 1..] == b;
      } else {
        HeldByte(s, d, i, |a|);
      }
    }
  }

  /** The first occurrence of a one-byte marker. */
  lemma FindByte(s: seq<Byte>, x: Byte, i: nat)
    requires i < |s| && s[i] == x
    requires forall j :: 0 <= j < i ==> s[j] != x
    ensures Find(s, [x]) == Some(i)
  {
    forall j | 0 <= j < i ensures !OccursAt(s, [x], j) {
      assert s[j..j + 1][0] == s[j];
    }
    assert s[i..i + 1] == [x];
    FindIs(s, [x], i);
  }

  lemma NoPieces(s: seq<Byte>, d: seq<Byte>)
    requires d != [] && !Occurs(s, d)
    ensures Pieces(s, d) == [s]
  {
  }
}
