/** The string operations that both multipart parsers use, on the bytes of the strings. */
module HeaderText {
  import opened Bytes
  import opened Search

  // ----- UTF-8

  predicate Continuation(b: Byte) {
    0x80 <= b <= 0xBF
  }

  /** The length of the UTF-8 sequence at the front of `s`, or 0 when there is none. */
  function Utf8Len(s: seq<Byte>): (n: nat)
    ensures n <= |s|
  {
    if s == [] then 0
    else if s[0] < 0x80 then 1
    else if |s| >= 2 && 0xC2 <= s[0] <= 0xDF && Continuation(s[1]) then 2
    else if |s| >= 3 && Continuation(s[1]) && Continuation(s[2])
         && (|| (s[0] == 0xE0 && 0xA0 <= s[1]) || 0xE1 <= s[0] <= 0xEC
             || (s[0] == 0xED && s[1] <= 0x9F) || 0xEE <= s[0] <= 0xEF) then 3
    else if |s| >= 4 && Continuation(s[1]) && Continuation(s[2]) && Continuation(s[3])
         && ((s[0] == 0xF0 && 0x90 <= s[1]) || 0xF1 <= s[0] <= 0xF3 || (s[0] == 0xF4 && s[1] <= 0x8F)) then 4
    else 0
  }

  /** What `str::from_utf8` accepts. */
  predicate ValidUtf8(s: seq<Byte>) {
    s == [] || (Utf8Len(s) > 0 && ValidUtf8(s[Utf8Len(s)..]))
  }

  lemma {:induction false} ValidUtf8Append(a: seq<Byte>, b: seq<Byte>)
    requires ValidUtf8(a) && ValidUtf8(b)
    ensures ValidUtf8(a + b)
    decreases |a|
  {
    hide Utf8Len;
    if a == [] {
      assert a + b == b;
    } else {
      var n := Utf8Len(a);
      Utf8LenPrefix(a, b);
      ValidUtf8Append(a[n..], b);
      assert (a + b)[n..] == a[n..] + b;
    }
  }

  lemma Utf8LenPrefix(a: seq<Byte>, b: seq<Byte>)
    ensures Utf8Len(a) > 0 ==> Utf8Len(a + b) == Utf8Len(a)
  {
  }

  lemma {:induction false} AsciiIsUtf8(s: seq<Byte>)
    requires forall k :: 0 <= k < |s| ==> s[k] < 0x80
    ensures ValidUtf8(s)
  {
    if s != [] {
      AsciiIsUtf8(s[1..]);
    }
  }

  // ----- trimming

  /** ASCII white space, as `char::is_whitespace` knows it. */
  predicate AsciiSpace(b: Byte) {
    9 <= b <= 13 || b == 32
  }

  /** The last two bytes of a three-byte white space that starts with 0xE2. */
  predicate PunctuationSpace(b1: Byte, b2: Byte) {
    (b1 == 0x80 && (0x80 <= b2 <= 0x8A || b2 == 0xA8 || b2 == 0xA9 || b2 == 0xAF)) || (b1 == 0x81 && b2 == 0x9F)
  }

  predicate WideSpace(b0: Byte, b1: Byte, b2: Byte) {
    || (b0 == 0xE1 && b1 == 0x9A && b2 == 0x80)
    || (b0 == 0xE2 && PunctuationSpace(b1, b2))
    || (b0 == 0xE3 && b1 == 0x80 && b2 == 0x80)
  }

  /** The length of a white-space character at the front, or 0. */
  function SpaceAtStart(s: seq<Byte>): (n: nat)
    ensures n <= |s|
  {
    if |s| >= 1 && AsciiSpace(s[0]) then 1
    else if |s| >= 2 && s[0] == 0xC2 && (s[1] == 0x85 || s[1] == 0xA0) then 2
    else if |s| >= 3 && WideSpace(s[0], s[1], s[2]) then 3
    else 0
  }

  function SpaceAtEnd(s: seq<Byte>): (n: nat)
    ensures n <= |s|
  {
    var k := |s|;
    if k >= 1 && AsciiSpace(s[k - 1]) then 1
    else if k >= 2 && s[k - 2] == 0xC2 && (s[k - 1] == 0x85 || s[k - 1] == 0xA0) then 2
    else if k >= 3 && WideSpace(s[k - 3], s[k - 2], s[k - 1]) then 3
    else 0
  }

  /** How many bytes `trim_start` takes off. */
  function LeadingSpace(s: seq<Byte>): (n: nat)
    ensures n <= |s|
    decreases |s|
  {
    var k := SpaceAtStart(s);
    if k == 0 then 0 else k + LeadingSpace(s[k..])
  }

  function TrailingSpace(s: seq<Byte>): (n: nat)
    ensures n <= |s|
    decreases |s|
  {
    var k := SpaceAtEnd(s);
    if k == 0 then 0 else k + TrailingSpace(s[..|s| - k])
  }

  /** The bounds of `str::trim` in `s`. */
  function TrimBounds(s: seq<Byte>): (b: (nat, nat))
    ensures b.0 <= b.1 <= |s|
  {
    var lo := LeadingSpace(s);
    (lo, |s| - TrailingSpace(s[lo..]))
  }

  function Trim(s: seq<Byte>): seq<Byte> {
    s[TrimBounds(s).0..TrimBounds(s).1]
  }

  /** How many times `c` stands at the front of `s`. */
  function LeadingRun(s: seq<Byte>, c: Byte): (n: nat)
    ensures n <= |s|
  {
    if s != [] && s[0] == c then 1 + LeadingRun(s[1..], c) else 0
  }

  function TrailingRun(s: seq<Byte>, c: Byte): (n: nat)
    ensures n <= |s|
  {
    if s != [] && s[|s| - 1] == c then 1 + TrailingRun(s[..|s| - 1], c) else 0
  }

  /** The bounds of `str::trim_matches(c)` in `s`. */
  function TrimRunBounds(s: seq<Byte>, c: Byte): (b: (nat, nat))
    ensures b.0 <= b.1 <= |s|
  {
    var lo := LeadingRun(s, c);
    (lo, |s| - TrailingRun(s[lo..], c))
  }

  function TrimRun(s: seq<Byte>, c: Byte): seq<Byte> {
    s[TrimRunBounds(s, c).0..TrimRunBounds(s, c).1]
  }

  /** `.trim_matches('"').trim_matches('\\'')`. */
  function Unquote(s: seq<Byte>): seq<Byte> {
    TrimRun(TrimRun(s, DOUBLE_QUOTE), SINGLE_QUOTE)
  }

  function Contains(s: seq<Byte>, d: seq<Byte>): bool {
    Find(s, d).Some?
  }

  // ----- what trimming leaves alone

  predicate NoByteAtEnds(s: seq<Byte>, c: Byte) {
    s != [] ==> s[0] != c && s[|s| - 1] != c
  }

  predicate NoQuoteAtEnds(s: seq<Byte>) {
    NoByteAtEnds(s, DOUBLE_QUOTE) && NoByteAtEnds(s, SINGLE_QUOTE)
  }

  function Quoted(s: seq<Byte>): seq<Byte> {
    [DOUBLE_QUOTE] + s + [DOUBLE_QUOTE]
  }

  lemma TrimRunNone(s: seq<Byte>, c: Byte)
    requires NoByteAtEnds(s, c)
    ensures TrimRun(s, c) == s
  {
  }

  lemma TrimRunQuoted(s: seq<Byte>)
    requires NoByteAtEnds(s, DOUBLE_QUOTE)
    ensures TrimRun(Quoted(s), DOUBLE_QUOTE) == s
  {
    var q := Quoted(s);
    assert q[1..] == s + [DOUBLE_QUOTE];
    if s == [] {
      assert q[1..] == [DOUBLE_QUOTE];
      assert q[1..][1..] == [];
      assert LeadingRun(q, DOUBLE_QUOTE) == 2;
      assert q[2..] == [];
    } else {
      assert LeadingRun(q, DOUBLE_QUOTE) == 1;
      assert q[1..][..|s|] == s;
      assert TrailingRun(q[1..], DOUBLE_QUOTE) == 1;
      assert q[1..|q| - 1] == s;
    }
  }

  /** Taking the quotes off a quoted name gives the name back exactly when it has none at its ends. */
  lemma UnquoteQuoted(s: seq<Byte>)
    ensures Unquote(Quoted(s)) == s <==> NoQuoteAtEnds(s)
  {
    if NoByteAtEnds(s, DOUBLE_QUOTE) {
      TrimRunQuoted(s);
      if NoByteAtEnds(s, SINGLE_QUOTE) {
        TrimRunNone(s, SINGLE_QUOTE);
      } else {
        TrimRunShortens(s, SINGLE_QUOTE);
      }
    } else {
      TrimQuotedShortens(s);
    }
  }

  lemma TrimRunShortens(s: seq<Byte>, c: Byte)
    requires !NoByteAtEnds(s, c)
    ensures |TrimRun(s, c)| < |s|
  {
  }

  lemma TrimQuotedShortens(s: seq<Byte>)
    requires !NoByteAtEnds(s, DOUBLE_QUOTE)
    ensures |TrimRun(Quoted(s), DOUBLE_QUOTE)| < |s|
  {
    var q := Quoted(s);
    assert q[1..] == s + [DOUBLE_QUOTE];
    if s[0] != DOUBLE_QUOTE {
      assert LeadingRun(q, DOUBLE_QUOTE) == 1;
      assert q[1..][..|s|] == s;
      assert TrailingRun(q[1..], DOUBLE_QUOTE) == 1 + TrailingRun(s, DOUBLE_QUOTE);
    }
  }

  // ----- in plain bytes: UTF-8

  /** The Unicode scalar values: no surrogates. */
  predicate Scalar(c: nat) {
    c < 0xD800 || 0xE000 <= c <= 0x10FFFF
  }

  /** The UTF-8 encoding of one of them (section 3 of RFC 3629). */
  function Encode(c: nat): seq<Byte>
    requires Scalar(c)
  {
    if c < 0x80 then [c as Byte]
    else if c < 0x800 then [(0xC0 + c / 64) as Byte, (0x80 + c % 64) as Byte]
    else if c < 0x1_0000 then [(0xE0 + c / 4096) as Byte, (0x80 + c / 64 % 64) as Byte, (0x80 + c % 64) as Byte]
    else
      [(0xF0 + c / 262144) as Byte, (0x80 + c / 4096 % 64) as Byte, (0x80 + c / 64 % 64) as Byte,
       (0x80 + c % 64) as Byte]
  }

  function EncodeAll(cs: seq<nat>): seq<Byte>
    requires forall k :: 0 <= k < |cs| ==> Scalar(cs[k])
  {
    if cs == [] then [] else Encode(cs[0]) + EncodeAll(cs[1..])
  }

  ghost predicate Encoded(s: seq<Byte>, cs: seq<nat>) {
    (forall k :: 0 <= k < |cs| ==> Scalar(cs[k])) && s == EncodeAll(cs)
  }

  /** An encoded scalar value at the front of a string is one sequence. */
  lemma EncodedLen(c: nat, rest: seq<Byte>)
    requires Scalar(c)
    ensures Encode(c) != [] && Utf8Len(Encode(c) + rest) == |Encode(c)|
  {
  }

  lemma Shifted(c: nat, high: nat, low: nat)
    requires c == 64 * high + low && low < 64
    ensures c / 64 == high && c % 64 == low && c / 4096 == high / 64 && c / 262144 == high / 4096
  {
  }

  lemma TwoEncode(s: seq<Byte>) returns (c: nat)
    requires Utf8Len(s) == 2
    ensures Scalar(c) && Encode(c) == s[..2]
  {
    c := 64 * (s[0] as nat - 0xC0) + (s[1] as nat - 0x80);
  }

  lemma ThreeEncode(s: seq<Byte>) returns (c: nat)
    requires Utf8Len(s) == 3
    ensures Scalar(c) && Encode(c) == s[..3]
  {
    var high := 64 * (s[0] as nat - 0xE0) + (s[1] as nat - 0x80);
    c := 64 * high + (s[2] as nat - 0x80);
    Shifted(c, high, s[2] as nat - 0x80);
    Shifted(high, s[0] as nat - 0xE0, s[1] as nat - 0x80);
    assert s[..3] == [s[0], s[1], s[2]];
  }

  lemma FourEncode(s: seq<Byte>) returns (c: nat)
    requires Utf8Len(s) == 4
    ensures Scalar(c) && Encode(c) == s[..4]
  {
    var top := 64 * (s[0] as nat - 0xF0) + (s[1] as nat - 0x80);
    var high := 64 * top + (s[2] as nat - 0x80);
    c := 64 * high + (s[3] as nat - 0x80);
    Shifted(c, high, s[3] as nat - 0x80);
    Shifted(high, top, s[2] as nat - 0x80);
    Shifted(top, s[0] as nat - 0xF0, s[1] as nat - 0x80);
    assert s[..4] == [s[0], s[1], s[2], s[3]];
  }

  /** A sequence at the front of a string encodes a scalar value. */
  lemma SequenceEncodes(s: seq<Byte>) returns (c: nat)
    requires Utf8Len(s) > 0
    ensures Scalar(c) && Encode(c) == s[..Utf8Len(s)]
  {
    hide Utf8Len;
    LenAtMostFour(s);
    match Utf8Len(s) {
      case 2 => c := TwoEncode(s);
      case 3 => c := ThreeEncode(s);
      case 4 => c := FourEncode(s);
      case _ => c := s[0] as nat;
    }
  }

  lemma LenAtMostFour(s: seq<Byte>)
    ensures Utf8Len(s) <= 4 && (Utf8Len(s) == 1 ==> s[0] < 0x80)
  {
  }

  lemma {:induction false} EncodedIsValid(cs: seq<nat>)
    requires forall k :: 0 <= k < |cs| ==> Scalar(cs[k])
    ensures ValidUtf8(EncodeAll(cs))
    decreases |cs|
  {
    hide Encode, Utf8Len;
    if cs != [] {
      EncodedLen(cs[0], EncodeAll(cs[1..]));
      EncodedIsValid(cs[1..]);
      assert EncodeAll(cs)[|Encode(cs[0])|..] == EncodeAll(cs[1..]);
    }
  }

  lemma {:induction false} ValidIsEncoded(s: seq<Byte>) returns (cs: seq<nat>)
    requires ValidUtf8(s)
    ensures Encoded(s, cs)
    decreases |s|
  {
    hide Encode, Utf8Len;
    if s == [] {
      cs := [];
    } else {
      var c := SequenceEncodes(s);
      var others := ValidIsEncoded(s[Utf8Len(s)..]);
      cs := [c] + others;
      assert cs[1..] == others;
    }
  }

  /** What is accepted is exactly what encodes some scalar values. */
  lemma ValidUtf8Iff(s: seq<Byte>)
    ensures ValidUtf8(s) <==> exists cs :: Encoded(s, cs)
  {
    hide ValidUtf8, Encode;
    if ValidUtf8(s) {
      var cs := ValidIsEncoded(s);
    }
    if cs :| Encoded(s, cs) {
      EncodedIsValid(cs);
    }
  }

  // ----- in plain bytes: trimming

  /** The encoding of a white-space character. */
  predicate WhiteSpace(c: seq<Byte>) {
    || (|c| == 1 && (9 <= c[0] <= 13 || c[0] == 32))
    || c == [0xC2, 0x85] || c == [0xC2, 0xA0] || c == [0xE1, 0x9A, 0x80]
    || (|c| == 3 && c[..2] == [0xE2, 0x80] && (0x80 <= c[2] <= 0x8A || c[2] == 0xA8 || c[2] == 0xA9 || c[2] == 0xAF))
    || c == [0xE2, 0x81, 0x9F] || c == [0xE3, 0x80, 0x80]
  }

  ghost predicate AllWhite(cs: seq<seq<Byte>>) {
    forall k :: 0 <= k < |cs| ==> WhiteSpace(cs[k])
  }

  /** No white-space character stands at either end. */
  ghost predicate NoWhiteAtEnds(s: seq<Byte>) {
    forall c :: WhiteSpace(c) ==> !(c <= s) && !(|c| <= |s| && s[|s| - |c|..] == c)
  }

  lemma StartIsWhite(s: seq<Byte>)
    ensures SpaceAtStart(s) > 0 ==> WhiteSpace(s[..SpaceAtStart(s)])
    ensures SpaceAtEnd(s) > 0 ==> WhiteSpace(s[|s| - SpaceAtEnd(s)..])
  {
  }

  lemma WhiteAtStart(c: seq<Byte>, rest: seq<Byte>)
    requires WhiteSpace(c)
    ensures SpaceAtStart(c + rest) == |c| > 0 && SpaceAtEnd(rest + c) == |c|
  {
  }

  /** Nothing in front of a white-space character becomes one with it. */
  lemma NoWhiteBefore(s: seq<Byte>, c: seq<Byte>, rest: seq<Byte>)
    requires s != [] && SpaceAtStart(s) == 0 && WhiteSpace(c)
    ensures SpaceAtStart(s + (c + rest)) == 0
  {
  }

  lemma {:induction false} LeadingWhite(cs: seq<seq<Byte>>, rest: seq<Byte>)
    requires AllWhite(cs)
    ensures LeadingSpace(Flatten(cs) + rest) == |Flatten(cs)| + LeadingSpace(rest)
    decreases |cs|
  {
    hide WhiteSpace, SpaceAtStart;
    if cs == [] {
      assert Flatten(cs) + rest == rest;
    } else {
      LeadingWhite(cs[1..], rest);
      WhiteAtStart(cs[0], Flatten(cs[1..]) + rest);
      Assoc(cs[0], Flatten(cs[1..]), rest);
      assert (cs[0] + (Flatten(cs[1..]) + rest))[|cs[0]|..] == Flatten(cs[1..]) + rest;
    }
  }

  lemma {:induction false} TrailingWhite(s: seq<Byte>, cs: seq<seq<Byte>>)
    requires AllWhite(cs)
    ensures TrailingSpace(s + Flatten(cs)) == TrailingSpace(s) + |Flatten(cs)|
    decreases |cs|
  {
    hide WhiteSpace, SpaceAtEnd;
    if cs == [] {
      assert s + Flatten(cs) == s;
    } else {
      var before, last := cs[..|cs| - 1], cs[|cs| - 1];
      TrailingWhite(s, before);
      FlattenAppend(before, [last]);
      assert cs == before + [last] && Flatten([last]) == last + [] == last;
      WhiteAtStart(last, s + Flatten(before));
      Assoc(s, Flatten(before), last);
      assert (s + Flatten(before) + last)[..|s + Flatten(before)|] == s + Flatten(before);
    }
  }

  lemma NothingWhite()
    ensures LeadingSpace([]) == 0 && TrailingSpace([]) == 0
  {
  }

  lemma NotWhite(s: seq<Byte>, c: seq<Byte>)
    requires NoWhiteAtEnds(s) && WhiteSpace(c) && |c| <= |s|
    ensures s[..|c|] != c && s[|s| - |c|..] != c
  {
    hide WhiteSpace;
    assert s[..|c|] <= s;
  }

  lemma NoWhiteToTake(s: seq<Byte>)
    requires NoWhiteAtEnds(s)
    ensures SpaceAtStart(s) == 0 && SpaceAtEnd(s) == 0 && TrailingSpace(s) == 0
  {
    hide WhiteSpace, SpaceAtStart, SpaceAtEnd, NoWhiteAtEnds;
    StartIsWhite(s);
    if SpaceAtStart(s) > 0 {
      NotWhite(s, s[..SpaceAtStart(s)]);
      assert false;
    }
    if SpaceAtEnd(s) > 0 {
      NotWhite(s, s[|s| - SpaceAtEnd(s)..]);
      assert false;
    }
  }

  lemma LeadingStops(s: seq<Byte>, back: seq<seq<Byte>>)
    requires s != [] && SpaceAtStart(s) == 0 && AllWhite(back)
    ensures LeadingSpace(s + Flatten(back)) == 0
  {
    hide WhiteSpace, SpaceAtStart;
    if back == [] {
      assert s + Flatten(back) == s;
    } else {
      assert WhiteSpace(back[0]);
      NoWhiteBefore(s, back[0], Flatten(back[1..]));
    }
  }

  lemma TrimIs(t: seq<Byte>, front: seq<Byte>, s: seq<Byte>, back: seq<Byte>)
    requires t == front + s + back && LeadingSpace(t) == |front| && TrailingSpace(s + back) == |back|
    ensures Trim(t) == s
  {
    hide LeadingSpace, TrailingSpace;
    assert t[|front|..] == s + back;
  }

  /** Trimming takes exactly the white-space characters off both ends. */
  lemma TrimTakes(front: seq<seq<Byte>>, s: seq<Byte>, back: seq<seq<Byte>>)
    requires AllWhite(front) && AllWhite(back) && NoWhiteAtEnds(s)
    ensures Trim(Flatten(front) + s + Flatten(back)) == s
  {
    hide WhiteSpace, SpaceAtStart, SpaceAtEnd, LeadingSpace, TrailingSpace, Trim, NoWhiteAtEnds, Flatten;
    var f, b := Flatten(front), Flatten(back);
    Assoc(f, s, b);
    NoWhiteToTake(s);
    NothingWhite();
    LeadingWhite(front, s + b);
    if s == [] {
      LeadingWhite(back, []);
      assert b + [] == b == s + b;
      assert f + s + b == (f + b) + s + [];
      TrimIs(f + s + b, f + b, s, []);
    } else {
      LeadingStops(s, back);
      TrailingWhite(s, back);
      TrimIs(f + s + b, f, s, b);
    }
  }

  // ----- in plain bytes: quotes

  function Run(c: Byte, n: nat): (r: seq<Byte>)
    ensures |r| == n && forall k :: 0 <= k < n ==> r[k] == c
  {
    seq(n, _ => c)
  }

  lemma {:induction false} LeadingRunTakes(c: Byte, n: nat, rest: seq<Byte>)
    ensures LeadingRun(Run(c, n) + rest, c) == n + LeadingRun(rest, c)
    decreases n
  {
    if n == 0 {
      assert Run(c, n) + rest == rest;
    } else {
      LeadingRunTakes(c, n - 1, rest);
      assert (Run(c, n) + rest)[1..] == Run(c, n - 1) + rest;
    }
  }

  lemma {:induction false} TrailingRunTakes(c: Byte, s: seq<Byte>, n: nat)
    ensures TrailingRun(s + Run(c, n), c) == TrailingRun(s, c) + n
    decreases n
  {
    if n == 0 {
      assert s + Run(c, n) == s;
    } else {
      TrailingRunTakes(c, s, n - 1);
      var t := s + Run(c, n);
      assert t[..|t| - 1] == s + Run(c, n - 1);
    }
  }

  lemma TrimRunIs(c: Byte, t: seq<Byte>, front: seq<Byte>, s: seq<Byte>, back: seq<Byte>)
    requires t == front + s + back && LeadingRun(t, c) == |front| && TrailingRun(s + back, c) == |back|
    ensures TrimRun(t, c) == s
  {
    hide LeadingRun, TrailingRun;
    assert t[|front|..] == s + back;
  }

  lemma NoRunAtEnds(s: seq<Byte>, c: Byte, rest: seq<Byte>)
    requires NoByteAtEnds(s, c)
    ensures TrailingRun(s, c) == 0 && LeadingRun([], c) == 0
    ensures s != [] ==> LeadingRun(s + rest, c) == 0
  {
  }

  lemma TrimRunTakes(c: Byte, m: nat, s: seq<Byte>, n: nat)
    requires NoByteAtEnds(s, c)
    ensures TrimRun(Run(c, m) + s + Run(c, n), c) == s
  {
    hide TrimRun, LeadingRun, TrailingRun, Run;
    var f, b := Run(c, m), Run(c, n);
    Assoc(f, s, b);
    NoRunAtEnds(s, c, b);
    LeadingRunTakes(c, m, s + b);
    if s == [] {
      LeadingRunTakes(c, n, []);
      assert b + [] == b == s + b;
      assert f + s + b == (f + b) + s + [];
      TrimRunIs(c, f + s + b, f + b, s, []);
    } else {
      TrailingRunTakes(c, s, n);
      TrimRunIs(c, f + s + b, f, s, b);
    }
  }

  /** Unquoting takes exactly the double quotes at both ends, then the single ones under them. */
  lemma UnquoteTakes(a: nat, b: nat, s: seq<Byte>, c: nat, d: nat)
    requires NoByteAtEnds(s, 39) && NoByteAtEnds(Run(39, b) + s + Run(39, c), 34)
    ensures Unquote(Run(34, a) + (Run(39, b) + s + Run(39, c)) + Run(34, d)) == s
  {
    hide TrimRun;
    TrimRunTakes(34, a, Run(39, b) + s + Run(39, c), d);
    TrimRunTakes(39, b, s, c);
  }
}
