/**
 The hand-written Content-Length parser. The first line (lines end at LF) that starts with
 `content-length:`, in any case, decides: its value is the digits after spaces and tabs, and
 there is none when no digit follows or the number does not fit in a `usize`.
 */
module ContentLengthHeader {
  import opened Bytes
  import opened Search

  const PATTERN: seq<Byte> := Ascii("content-length:")
  const LINE_FEED: seq<Byte> := [10]

  // ----- the line-based specification

  /** The field name stands at `a`, whatever its case. */
  predicate FieldAt(h: seq<Byte>, a: nat) {
    a + |PATTERN| <= |h| && forall j :: 0 <= j < |PATTERN| ==> Lower(h[a + j]) == PATTERN[j]
  }

  predicate LineStart(h: seq<Byte>, a: nat) {
    a == 0 || (a <= |h| && h[a - 1] == LF)
  }

  /** The first line start at or after the line start `a` that begins the field. */
  function FieldStart(h: seq<Byte>, a: nat): (r: Option<nat>)
    ensures r.Some? ==> a <= r.value && FieldAt(h, r.value)
    decreases |h| - a
  {
    if a + |PATTERN| > |h| then None
    else if FieldAt(h, a) then Some(a)
    else match FindFrom(h, LINE_FEED, a)
      case None => None
      case Some(e) => FieldStart(h, e + 1)
  }

  function LineEnd(h: seq<Byte>, a: nat): (e: nat)
    requires a <= |h|
    ensures a <= e <= |h|
  {
    match FindFrom(h, LINE_FEED, a)
    case Some(e) => e
    case None => |h|
  }

  predicate IsBlank(b: Byte) {
    b == SPACE || b == TAB
  }

  function BlanksEnd(h: seq<Byte>, pos: nat, end: nat): (r: nat)
    requires pos <= end <= |h|
    ensures pos <= r <= end
    decreases end - pos
  {
    if pos < end && IsBlank(h[pos]) then BlanksEnd(h, pos + 1, end) else pos
  }

  function DigitsEnd(h: seq<Byte>, pos: nat, end: nat): (r: nat)
    requires pos <= end <= |h|
    ensures pos <= r <= end
    ensures forall k :: pos <= k < r ==> IsDigit(h[k])
    decreases end - pos
  {
    if pos < end && IsDigit(h[pos]) then DigitsEnd(h, pos + 1, end) else pos
  }

  predicate Digits(ds: seq<Byte>) {
    forall k :: 0 <= k < |ds| ==> IsDigit(ds[k])
  }

  /** The number a digit string denotes. */
  function Decimal(ds: seq<Byte>): nat
    requires Digits(ds)
  {
    if ds == [] then 0
    else 10 * Decimal(ds[..|ds| - 1]) + (ds[|ds| - 1] - ZERO_DIGIT) as nat
  }

  function Bounded(v: nat): Option<nat> {
    if v <= USIZE_MAX then Some(v) else None
  }

  /** The value of the field whose name starts at `a`. */
  function FieldValue(h: seq<Byte>, a: nat): Option<nat>
    requires FieldAt(h, a)
  {
    var end := LineEnd(h, a + |PATTERN|);
    var first := BlanksEnd(h, a + |PATTERN|, end);
    var last := DigitsEnd(h, first, end);
    if first == last then None else Bounded(Decimal(h[first..last]))
  }

  function ContentLength(h: seq<Byte>): Option<nat> {
    match FieldStart(h, 0)
    case None => None
    case Some(a) => FieldValue(h, a)
  }

  /** The field found is on the first line that has it, and one is found if any line has it. */
  lemma FirstLineDecides(h: seq<Byte>)
    ensures FieldStart(h, 0).Some? ==> LineStart(h, FieldStart(h, 0).value)
    ensures forall b :: LineStart(h, b) && FieldAt(h, b)
              ==> FieldStart(h, 0).Some? && FieldStart(h, 0).value <= b
  {
    FieldStartsLine(h, 0);
    forall b | LineStart(h, b) && FieldAt(h, b)
      ensures FieldStart(h, 0).Some? && FieldStart(h, 0).value <= b
    {
      FieldStartIsFirst(h, 0, b);
    }
  }

  lemma {:induction false} FieldStartsLine(h: seq<Byte>, a: nat)
    requires LineStart(h, a)
    ensures FieldStart(h, a).Some? ==> LineStart(h, FieldStart(h, a).value)
    decreases |h| - a
  {
    hide FieldAt;
    if a + |PATTERN| <= |h| && !FieldAt(h, a) {
      match FindFrom(h, LINE_FEED, a)
      case None =>
      case Some(e) => FieldStartsLine(h, e + 1);
    }
  }

  lemma {:induction false} FieldStartIsFirst(h: seq<Byte>, a: nat, b: nat)
    requires LineStart(h, a) && a <= b
    requires LineStart(h, b) && FieldAt(h, b)
    ensures FieldStart(h, a).Some? && FieldStart(h, a).value <= b
    decreases |h| - a
  {
    hide FindFrom, LineEnd, FieldStart;
    FieldStartStep(h, a);
    if !FieldAt(h, a) {
      NextLine(h, a, LineEnd(h, a));
      FieldStartIsFirst(h, LineEnd(h, a) + 1, b);
    }
  }

  /** No line starts between a line start and its line feed. */
  lemma NextLine(h: seq<Byte>, a: nat, e: nat)
    requires a <= |h|
    requires e == LineEnd(h, a)
    ensures e < |h| ==> h[e] == LF
    ensures forall k :: a <= k < e ==> h[k] != LF
    ensures forall b :: a < b <= e ==> !LineStart(h, b)
  {
    FindLeast(h, LINE_FEED, a);
    forall k | a <= k < e ensures h[k] != LF {
      assert !OccursAt(h, LINE_FEED, k);
    }
  }

  /** The digit run is maximal, after all the spaces and tabs. */
  lemma {:induction false} RunsAreMaximal(h: seq<Byte>, pos: nat, end: nat)
    requires pos <= end <= |h|
    ensures var p := BlanksEnd(h, pos, end);
            && (forall k :: pos <= k < p ==> IsBlank(h[k]))
            && (p < end ==> !IsBlank(h[p]))
    ensures var q := DigitsEnd(h, pos, end); q < end ==> !IsDigit(h[q])
    decreases end - pos
  {
    if pos < end {
      RunsAreMaximal(h, pos + 1, end);
    }
  }

  // ----- the scan

  lemma NameHoldsNoLf(h: seq<Byte>, a: nat, k: nat)
    requires FieldAt(h, a) && a <= k < a + |PATTERN|
    ensures h[k] != LF
  {
    assert Lower(h[a + (k - a)]) == PATTERN[k - a];
  }

  /** A name inside a line never reaches past the line's end. */
  lemma FieldWithinLine(h: seq<Byte>, a: nat)
    requires FieldAt(h, a)
    ensures LineEnd(h, a) == LineEnd(h, a + |PATTERN|)
    ensures a + |PATTERN| <= LineEnd(h, a)
  {
    NextLine(h, a, LineEnd(h, a));
    NextLine(h, a + |PATTERN|, LineEnd(h, a + |PATTERN|));
    var e, f := LineEnd(h, a), LineEnd(h, a + |PATTERN|);
    forall k | a <= k < a + |PATTERN| ensures h[k] != LF {
      NameHoldsNoLf(h, a, k);
    }
    assert !(e < f) && !(f < e);
  }

  /** `checked_mul(10)?.checked_add(digit)?`. */
  function CheckedStep(value: nat, digit: Byte): Option<nat>
    requires IsDigit(digit)
  {
    if value * 10 > USIZE_MAX then None
    else Bounded(value * 10 + (digit - ZERO_DIGIT) as nat)
  }

  lemma DecimalAppend(ds: seq<Byte>, d: Byte)
    requires Digits(ds) && IsDigit(d)
    ensures Digits(ds + [d]) && Decimal([]) == 0
    ensures Decimal(ds + [d]) == 10 * Decimal(ds) + (d as nat - 48)
  {
    assert (ds + [d])[..|ds|] == ds;
  }

  /** Reading on never makes a number smaller, so an early overflow is final. */
  lemma {:induction false} DecimalGrows(ds: seq<Byte>, n: nat)
    requires Digits(ds) && n <= |ds|
    ensures Digits(ds[..n]) && Decimal(ds[..n]) <= Decimal(ds)
    decreases |ds|
  {
    if n == |ds| {
      assert ds[..n] == ds;
    } else {
      DecimalGrows(ds[..|ds| - 1], n);
      assert ds[..|ds| - 1][..n] == ds[..n];
    }
  }

  method ParseDigits(ds: seq<Byte>) returns (r: Option<nat>)
    requires Digits(ds)
    ensures r == Bounded(Decimal(ds))
  {
    var value: nat := 0;
    assert ds[..0] == [];
    for i := 0 to |ds|
      invariant value == Decimal(ds[..i]) <= USIZE_MAX
    {
      assert ds[..i + 1] == ds[..i] + [ds[i]];
      DecimalAppend(ds[..i], ds[i]);
      DecimalGrows(ds, i + 1);
      var next := CheckedStep(value, ds[i]);
      if next.None? {
        return None;
      }
      value := next.value;
    }
    assert ds[..|ds|] == ds;
    return Some(value);
  }

  method ExtractContentLength(headers: seq<Byte>) returns (r: Option<nat>)
    ensures r == ContentLength(headers)
  {
    hide FindFrom, FieldAt, Decimal;
    var lineStart: nat := 0;
    while lineStart + |PATTERN| <= |headers|
      invariant lineStart <= |headers| + 1
      invariant FieldStart(headers, 0) == FieldStart(headers, lineStart)
    {
      var lineEnd := ScanLine(headers, lineStart);
      var matched := MatchName(headers, lineStart);
      if matched {
        FieldWithinLine(headers, lineStart);
        r := ReadValue(headers, lineStart, lineEnd);
        return;
      }
      FieldStartStep(headers, lineStart);
      if lineEnd >= |headers| {
        break;
      }
      lineStart := lineEnd + 1;
    }
    return None;
  }

  /** The value after a matched name: blanks are skipped, then digits are taken. */
  method ReadValue(headers: seq<Byte>, lineStart: nat, lineEnd: nat) returns (r: Option<nat>)
    requires FieldAt(headers, lineStart) && lineEnd == LineEnd(headers, lineStart + |PATTERN|)
    ensures r == FieldValue(headers, lineStart)
  {
    hide FieldAt, Decimal;
    var pos := lineStart + |PATTERN|;
    while pos < lineEnd && IsBlank(headers[pos])
      invariant lineStart + |PATTERN| <= pos <= lineEnd
      invariant BlanksEnd(headers, lineStart + |PATTERN|, lineEnd) == BlanksEnd(headers, pos, lineEnd)
    {
      pos := pos + 1;
    }
    var numberStart := pos;
    while pos < lineEnd && IsDigit(headers[pos])
      invariant numberStart <= pos <= lineEnd
      invariant DigitsEnd(headers, numberStart, lineEnd) == DigitsEnd(headers, pos, lineEnd)
    {
      pos := pos + 1;
    }
    if pos > numberStart {
      r := ParseDigits(headers[numberStart..pos]);
      return;
    }
    return None;
  }

  lemma FieldStartStep(h: seq<Byte>, a: nat)
    requires a <= |h|
    ensures FieldStart(h, a)
         == if FieldAt(h, a) then Some(a)
            else if LineEnd(h, a) < |h| then FieldStart(h, LineEnd(h, a) + 1) else None
  {
    hide FindFrom;
    if a + |PATTERN| <= |h| {
    } else {
      assert FieldStart(h, LineEnd(h, a) + 1).None?;
    }
  }

  /** The inner scan for the line's end. */
  method ScanLine(h: seq<Byte>, lineStart: nat) returns (lineEnd: nat)
    requires lineStart <= |h|
    ensures lineEnd == LineEnd(h, lineStart)
  {
    lineEnd := lineStart;
    while lineEnd < |h| && h[lineEnd] != LF
      invariant lineStart <= lineEnd <= |h|
      invariant FindFrom(h, LINE_FEED, lineStart) == FindFrom(h, LINE_FEED, lineEnd)
    {
      FindStep(h, LINE_FEED, lineEnd);
      lineEnd := lineEnd + 1;
    }
    FindStep(h, LINE_FEED, lineEnd);
  }

  method MatchName(h: seq<Byte>, lineStart: nat) returns (matched: bool)
    requires lineStart + |PATTERN| <= |h|
    ensures matched <==> FieldAt(h, lineStart)
  {
    for j := 0 to |PATTERN|
      invariant forall k :: 0 <= k < j ==> Lower(h[lineStart + k]) == PATTERN[k]
    {
      if Lower(h[lineStart + j]) != PATTERN[j] {
        return false;
      }
    }
    return true;
  }

  // ----- printing a length and reading it back

  /** `format!("{}", n)`. */
  function ToDecimal(n: nat): (ds: seq<Byte>)
    ensures ds != [] && Digits(ds)
  {
    var digit := ZERO_DIGIT + (n % 10) as Byte;
    if n < 10 then [digit] else ToDecimal(n / 10) + [digit]
  }

  lemma {:induction false} DecimalOfPrinted(n: nat)
    ensures Decimal(ToDecimal(n)) == n
  {
    var digit := ZERO_DIGIT + (n % 10) as Byte;
    if n < 10 {
      DecimalAppend([], digit);
      assert [] + [digit] == [digit];
    } else {
      DecimalOfPrinted(n / 10);
      DecimalAppend(ToDecimal(n / 10), digit);
    }
  }

  lemma {:induction false} BlanksEndIs(h: seq<Byte>, pos: nat, end: nat, q: nat)
    requires pos <= q <= end <= |h|
    requires forall k :: pos <= k < q ==> IsBlank(h[k])
    requires q < end ==> !IsBlank(h[q])
    ensures BlanksEnd(h, pos, end) == q
    decreases q - pos
  {
    if pos < q {
      BlanksEndIs(h, pos + 1, end, q);
    }
  }

  lemma {:induction false} DigitsEndIs(h: seq<Byte>, pos: nat, end: nat, q: nat)
    requires pos <= q <= end <= |h|
    requires forall k :: pos <= k < q ==> IsDigit(h[k])
    requires q < end ==> !IsDigit(h[q])
    ensures DigitsEnd(h, pos, end) == q
    decreases q - pos
  {
    if pos < q {
      DigitsEndIs(h, pos + 1, end, q);
    }
  }

  lemma FieldInPrefix(h: seq<Byte>, a: nat, b: nat)
    requires a <= |h| && b + |PATTERN| <= a
    requires FieldAt(h, b) && LineStart(h, b)
    ensures FieldAt(h[..a], b) && LineStart(h[..a], b)
  {
  }

  /** A field after whole lines that do not hold it is the one that decides. */
  lemma FieldAfterLines(h: seq<Byte>, a: nat)
    requires FieldAt(h, a) && LineStart(h, a)
    requires FieldStart(h[..a], 0).None?
    ensures FieldStart(h, 0) == Some(a)
  {
    hide FieldStart;
    FirstLineDecides(h);
    FirstLineDecides(h[..a]);
    var b := FieldStart(h, 0).value;
    if b < a {
      FieldWithinLine(h, b);
      NextLine(h, b, LineEnd(h, b));
      FieldInPrefix(h, a, b);
    }
  }

  /** Blanks, digits and whatever follows, laid out at `a`, are read as laid out. */
  lemma ValueAt(h: seq<Byte>, a: nat, p1: nat, p2: nat)
    requires FieldAt(h, a)
    requires a + |PATTERN| <= p1 < p2 <= |h|
    requires forall k :: a + |PATTERN| <= k < p1 ==> IsBlank(h[k])
    requires forall k :: p1 <= k < p2 ==> IsDigit(h[k])
    requires p2 < |h| ==> !IsDigit(h[p2])
    ensures FieldValue(h, a) == Bounded(Decimal(h[p1..p2]))
  {
    var end := LineEnd(h, a + |PATTERN|);
    NextLine(h, a + |PATTERN|, end);
    BlanksEndIs(h, a + |PATTERN|, end, p1);
    DigitsEndIs(h, p1, end, p2);
  }

  lemma NameAt(h: seq<Byte>, a: nat, name: seq<Byte>)
    requires EqIgnoreCase(name, PATTERN)
    requires a + |name| <= |h| && h[a..a + |name|] == name
    ensures FieldAt(h, a)
  {
  }

  /** Where the four parts of a printed field lie. */
  lemma Layout(pre: seq<Byte>, name: seq<Byte>, blanks: seq<Byte>, ds: seq<Byte>, post: seq<Byte>)
    ensures var h := pre + (name + blanks + ds + post);
            var p0 := |pre| + |name|;
            var p1 := p0 + |blanks|;
            var p2 := p1 + |ds|;
            && h[|pre|..p0] == name
            && h[p0..p1] == blanks
            && h[p1..p2] == ds
            && (p2 < |h| ==> post != [] && h[p2] == post[0])
  {
  }

  // ----- in plain bytes

  /** `content-length:`. */
  const FIELD_NAME: seq<Byte> := [99, 111, 110, 116, 101, 110, 116, 45, 108, 101, 110, 103, 116, 104, 58]

  predicate SpellsName(name: seq<Byte>) {
    Spells(FIELD_NAME, name)
  }

  predicate SpaceOrTab(b: Byte) {
    b == 32 || b == 9
  }

  predicate DecimalDigit(b: Byte) {
    48 <= b <= 57
  }

  /** The line that starts at `a` begins with the name. */
  predicate NamedLine(s: seq<Byte>, a: nat) {
    a + 15 <= |s| && (a == 0 || s[a - 1] == 10) && SpellsName(s[a..a + 15])
  }

  ghost predicate NamedNowhere(s: seq<Byte>) {
    forall a :: !NamedLine(s, a)
  }

  lemma PatternBytes()
    ensures PATTERN == FIELD_NAME
  {
  }

  lemma SpellingIs(name: seq<Byte>)
    ensures SpellsName(name) <==> EqIgnoreCase(name, PATTERN)
  {
    PatternBytes();
    SpellsIs(FIELD_NAME, name);
  }

  lemma NamedMeansField(s: seq<Byte>, a: nat)
    requires NamedLine(s, a)
    ensures FieldStart(s, 0).Some?
  {
    hide FieldStart, FieldAt, EqIgnoreCase;
    PatternBytes();
    SpellingIs(s[a..a + 15]);
    NameAt(s, a, s[a..a + 15]);
    FirstLineDecides(s);
    assert LineStart(s, a);
  }

  lemma FieldMeansNamed(s: seq<Byte>, a: nat)
    requires FieldAt(s, a) && LineStart(s, a)
    ensures NamedLine(s, a)
  {
    hide SpellsName;
    PatternBytes();
    SpellingIs(s[a..a + 15]);
  }

  lemma NamedNowhereIs(s: seq<Byte>)
    ensures NamedNowhere(s) <==> FieldStart(s, 0).None?
  {
    hide FieldStart, NamedLine, FieldAt;
    if a :| NamedLine(s, a) {
      NamedMeansField(s, a);
    }
    FirstLineDecides(s);
    if FieldStart(s, 0).Some? {
      FieldMeansNamed(s, FieldStart(s, 0).value);
    }
  }

  /**
   Any length printed after the field name, in any case and with any spaces and tabs, on a line of
   its own is read back; and one that does not fit in a `usize` is reported as absent.
   */
  lemma PrintedLengthParses(pre: seq<Byte>, name: seq<Byte>, blanks: seq<Byte>, n: nat, post: seq<Byte>)
    requires (pre == [] || pre[|pre| - 1] == 10) && NamedNowhere(pre)
    requires SpellsName(name)
    requires forall k :: 0 <= k < |blanks| ==> SpaceOrTab(blanks[k])
    requires post == [] || !DecimalDigit(post[0])
    ensures forall k :: 0 <= k < |ToDecimal(n)| ==> DecimalDigit(ToDecimal(n)[k])
    ensures ContentLength(pre + (name + blanks + ToDecimal(n) + post))
         == if n <= 0xFFFF_FFFF_FFFF_FFFF then Some(n) else None
  {
    hide ContentLength, Decimal, ToDecimal, EqIgnoreCase, FieldStart, SpellsName, NamedNowhere;
    var ds := ToDecimal(n);
    var h := pre + (name + blanks + ds + post);
    SpellingIs(name);
    NamedNowhereIs(pre);
    Layout(pre, name, blanks, ds, post);
    PrefixOf(pre, name + blanks + ds + post);
    var p0 := |pre| + |name|;
    var p1 := p0 + |blanks|;
    FieldParses(h, |pre|, p0, p1, p1 + |ds|, blanks, ds);
    DecimalOfPrinted(n);
  }

  /** Any other byte than these between the name and a number, or no number, gives no value. */
  lemma StrayByteHidesLength(pre: seq<Byte>, name: seq<Byte>, blanks: seq<Byte>, post: seq<Byte>)
    requires (pre == [] || pre[|pre| - 1] == 10) && NamedNowhere(pre)
    requires SpellsName(name)
    requires forall k :: 0 <= k < |blanks| ==> SpaceOrTab(blanks[k])
    requires post == [] || (!SpaceOrTab(post[0]) && !DecimalDigit(post[0]))
    ensures ContentLength(pre + (name + blanks + [] + post)) == None
  {
    hide ContentLength, EqIgnoreCase, FieldStart, SpellsName, NamedNowhere, LineStart;
    var h := pre + (name + blanks + [] + post);
    SpellingIs(name);
    NamedNowhereIs(pre);
    Layout(pre, name, blanks, [], post);
    PrefixOf(pre, name + blanks + [] + post);
    NoValueParses(h, |pre|, |pre| + |name|, |pre| + |name| + |blanks|, blanks);
  }

  lemma NoValueParses(h: seq<Byte>, a: nat, p0: nat, p1: nat, blanks: seq<Byte>)
    requires a <= p0 <= p1 <= |h| && LineStart(h, a) && FieldStart(h[..a], 0).None?
    requires EqIgnoreCase(h[a..p0], PATTERN)
    requires h[p0..p1] == blanks && forall k :: 0 <= k < |blanks| ==> IsBlank(blanks[k])
    requires p1 < |h| ==> !IsBlank(h[p1]) && !IsDigit(h[p1])
    ensures ContentLength(h) == None
  {
    hide FieldValue, FieldStart, FieldAt, LineStart;
    BlanksAt(h, p0, p1);
    NameAt(h, a, h[a..p0]);
    FieldAfterLines(h, a);
    NoDigitAt(h, a, p1);
  }

  lemma NoDigitAt(h: seq<Byte>, a: nat, p1: nat)
    requires FieldAt(h, a)
    requires a + |PATTERN| <= p1 <= |h|
    requires forall k :: a + |PATTERN| <= k < p1 ==> IsBlank(h[k])
    requires p1 < |h| ==> !IsBlank(h[p1]) && !IsDigit(h[p1])
    ensures FieldValue(h, a) == None
  {
    var end := LineEnd(h, a + |PATTERN|);
    NextLine(h, a + |PATTERN|, end);
    BlanksEndIs(h, a + |PATTERN|, end, p1);
  }

  lemma PrefixOf(a: seq<Byte>, b: seq<Byte>)
    ensures (a + b)[..|a|] == a
    ensures a == [] || a[|a| - 1] == LF ==> LineStart(a + b, |a|)
  {
  }

  lemma FieldParses(h: seq<Byte>, a: nat, p0: nat, p1: nat, p2: nat, blanks: seq<Byte>, ds: seq<Byte>)
    requires a <= p0 <= p1 < p2 <= |h| && LineStart(h, a) && FieldStart(h[..a], 0).None?
    requires EqIgnoreCase(h[a..p0], PATTERN)
    requires h[p0..p1] == blanks && forall k :: 0 <= k < |blanks| ==> IsBlank(blanks[k])
    requires h[p1..p2] == ds && Digits(ds)
    requires p2 < |h| ==> !IsDigit(h[p2])
    ensures ContentLength(h) == Bounded(Decimal(ds))
  {
    hide ContentLength, FieldStart, Decimal, EqIgnoreCase, LineStart;
    BlanksAt(h, p0, p1);
    DigitsAt(h, p1, p2);
    PrintedParses(h, a, p0, p1, p2);
  }

  /** Name, blanks and digits laid out at `a`, `p0` and `p1`, after lines without the field. */
  lemma PrintedParses(h: seq<Byte>, a: nat, p0: nat, p1: nat, p2: nat)
    requires a <= p0 <= p1 < p2 <= |h| && LineStart(h, a) && FieldStart(h[..a], 0).None?
    requires EqIgnoreCase(h[a..p0], PATTERN)
    requires forall k :: p0 <= k < p1 ==> IsBlank(h[k])
    requires Digits(h[p1..p2]) && forall k :: p1 <= k < p2 ==> IsDigit(h[k])
    requires p2 < |h| ==> !IsDigit(h[p2])
    ensures ContentLength(h) == Bounded(Decimal(h[p1..p2]))
  {
    hide FieldValue, FieldStart, FieldAt, Decimal, LineStart;
    NameAt(h, a, h[a..p0]);
    FieldAfterLines(h, a);
    ValueAt(h, a, p1, p2);
  }

  lemma BlanksAt(h: seq<Byte>, lo: nat, hi: nat)
    requires lo <= hi <= |h|
    requires forall k :: 0 <= k < hi - lo ==> IsBlank(h[lo..hi][k])
    ensures forall k :: lo <= k < hi ==> IsBlank(h[k])
  {
    forall k | lo <= k < hi ensures IsBlank(h[k]) {
      assert h[k] == h[lo..hi][k - lo];
    }
  }

  lemma DigitsAt(h: seq<Byte>, lo: nat, hi: nat)
    requires lo <= hi <= |h| && Digits(h[lo..hi])
    ensures forall k :: lo <= k < hi ==> IsDigit(h[k])
  {
    forall k | lo <= k < hi ensures IsDigit(h[k]) {
      assert h[k] == h[lo..hi][k - lo];
    }
  }
}
