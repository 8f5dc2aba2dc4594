/** What the zero-copy parser makes of a printed body, and that the standard form is that, trimmed. */
module ArenaRoundTrip {
  import opened Bytes
  import opened Search
  import opened HeaderText
  import opened Multipart
  import opened MultipartPrinter
  import opened MultipartArena
  import opened RoundTrip
  import opened Split

  // ----- the every-position scan of a printed body

  /** Where no delimiter begins, the scan only moves on. */
  lemma {:induction false} ScanOver(s: seq<Byte>, d: seq<Byte>, i: nat, next: nat, start: nat)
    requires i <= next <= |s|
    requires forall j :: i <= j < next ==> !OccursAt(s, d, j)
    ensures ArenaSpans(s, d, i, start) == ArenaSpans(s, d, next, start)
    decreases next - i
  {
    if i < next {
      ScanOver(s, d, i + 1, next, start);
    }
  }

  lemma ScanCut(s: seq<Byte>, d: seq<Byte>, i: nat, next: nat, start: nat)
    requires i <= next < |s| && start < next
    requires forall j :: i <= j < next ==> !OccursAt(s, d, j)
    requires OccursAt(s, d, next)
    ensures Slices(s, ArenaSpans(s, d, i, start))
         == [s[start..next]] + Slices(s, ArenaSpans(s, d, next + 1, next + |d|))
  {
    ScanOver(s, d, i, next, start);
    SlicesStep(s, start, next, ArenaSpans(s, d, next + 1, next + |d|));
  }

  /** Between two delimiters of a printed body no other begins. */
  lemma NoneBetween(pre: seq<Byte>, d: seq<Byte>, c: seq<Byte>, rest: seq<Byte>, j: nat)
    requires CR !in d && LF !in d && d != []
    requires c != [] && c[0] == CR && c[|c| - 1] == LF && !Occurs(c, d)
    requires |pre| < j < |pre| + |d| + |c|
    ensures !OccursAt(pre + d + (c + d + rest), d, j)
  {
    var s := pre + d + (c + d + rest);
    var lo := |pre| + |d|;
    if OccursAt(s, d, j) {
      if j < lo {
        HeldByte(s, d, j, lo);
      } else if j + |d| > lo + |c| {
        HeldByte(s, d, j, lo + |c| - 1);
      } else {
        assert s[lo..] == c + (d + rest);
        OccursInSuffix(s, d, lo, j - lo);
        OccursInPrefix(c, d + rest, d, j - lo);
      }
    }
  }

  /** What the scan may leave of the closing mark, when the boundary is nothing but dashes. */
  predicate Leftover(ps: seq<seq<Byte>>) {
    ps == [] || ps == [[13, 10]] || ps == [[45, 13, 10]]
  }

  /** A delimiter that fits over itself one or two positions on is nothing but dashes. */
  lemma {:induction false} AllDashes(d: seq<Byte>, step: nat, k: nat)
    requires 1 <= step <= 2 <= |d| && d[0] == d[1] == 45 && k < |d|
    requires forall i :: step <= i < |d| ==> d[i] == d[i - step]
    ensures d[k] == 45
    decreases k
  {
    if k >= step {
      AllDashes(d, step, k - step);
    }
  }

  predicate Dashes(d: seq<Byte>) {
    forall k :: 0 <= k < |d| ==> d[k] == 45
  }

  lemma FitsOver(s: seq<Byte>, d: seq<Byte>, p: nat, step: nat)
    requires 1 <= step <= 2 <= |d| && d[0] == d[1] == 45
    requires OccursAt(s, d, p) && OccursAt(s, d, p + step)
    ensures Dashes(d)
  {
    forall i | step <= i < |d| ensures d[i] == d[i - step] {
      assert s[p..p + |d|][i] == s[p + step..p + step + |d|][i - step];
    }
    forall k | 0 <= k < |d| ensures d[k] == 45 {
      AllDashes(d, step, k);
    }
  }

  /** Only the two positions after the last delimiter can hold another; nothing is cut there. */
  lemma ScanTail(s: seq<Byte>, d: seq<Byte>, p: nat) returns (start: nat)
    requires |d| >= 2 && |s| == p + |d| + 4
    requires forall j :: p + 2 < j <= |s| ==> !OccursAt(s, d, j)
    ensures p + |d| <= start <= p + |d| + 2
    ensures start == p + |d| || OccursAt(s, d, p + 1) || OccursAt(s, d, p + 2)
    ensures ArenaSpans(s, d, p + 1, p + |d|) == if s[start..] != CLOSING then [Span(start, |s|)] else []
  {
    hide OccursAt;
    start := if OccursAt(s, d, p + 1) then p + 1 + |d| else p + |d|;
    assert ArenaSpans(s, d, p + 1, p + |d|) == ArenaSpans(s, d, p + 2, start);
    var two := if OccursAt(s, d, p + 2) then p + 2 + |d| else start;
    assert ArenaSpans(s, d, p + 2, start) == ArenaSpans(s, d, p + 3, two);
    start := two;
    ScanOver(s, d, p + 3, |s|, start);
  }

  lemma ClosingAt(s: seq<Byte>, at: nat, k: nat)
    requires at + 4 == |s| && s[at..] == CLOSING && k <= 2
    ensures s[at + 2] == CR
    ensures Leftover(if s[at + k..] != CLOSING then [s[at + k..|s|]] else [])
  {
    assert s[at..][2] == s[at + 2];
    assert s[at + k..|s|] == s[at + k..] == s[at..][k..];
  }

  lemma ScanClosing(s: seq<Byte>, d: seq<Byte>, p: nat)
    requires CR !in d && |d| >= 2 && d[0] == d[1] == 45 && OccursAt(s, d, p)
    requires |s| == p + |d| + 4 && s[p + |d|..] == CLOSING
    ensures Leftover(Slices(s, ArenaSpans(s, d, p + 1, p + |d|)))
    ensures Slices(s, ArenaSpans(s, d, p + 1, p + |d|)) == [] || Dashes(d)
  {
    hide OccursAt, ArenaSpans, Leftover, Slices, Dashes;
    ClosingAt(s, p + |d|, 0);
    ClosingBlocks(s, d, p);
    var start := ScanTail(s, d, p);
    ClosingAt(s, p + |d|, start - p - |d|);
    OneSlice(s, start);
    if OccursAt(s, d, p + 1) {
      FitsOver(s, d, p, 1);
    } else if OccursAt(s, d, p + 2) {
      FitsOver(s, d, p, 2);
    }
  }

  lemma OneSlice(s: seq<Byte>, start: nat)
    requires start <= |s|
    ensures Slices(s, [Span(start, |s|)]) == [s[start..|s|]] && Slices(s, []) == []
  {
  }

  lemma ClosingBlocks(s: seq<Byte>, d: seq<Byte>, p: nat)
    requires CR !in d && |d| >= 2
    requires |s| == p + |d| + 4 && s[p + |d| + 2] == CR
    ensures forall j :: p + 2 < j <= |s| ==> !OccursAt(s, d, j)
  {
  }

  /** The scan behind a delimiter hands on the parts still to come, and at most a leftover. */
  lemma {:induction false} ScanPrinted(pre: seq<Byte>, boundary: Text, parts: seq<Part>)
    returns (rest: seq<seq<Byte>>)
    requires CR !in boundary && LF !in boundary && Separated(boundary, parts)
    ensures var d := Delimiter(boundary);
            var s := pre + d + AfterFirst(boundary, parts);
            Slices(s, ArenaSpans(s, d, |pre| + 1, |pre| + |d|)) == Chunks(parts) + rest
    ensures Leftover(rest) && (rest == [] || Dashes(boundary))
    decreases |parts|
  {
    hide OccursAt, Occurs, Chunk, ArenaSpans, Leftover, Dashes;
    var d := Delimiter(boundary);
    var s := pre + d + AfterFirst(boundary, parts);
    if parts == [] {
      assert s[|pre| + |d|..] == CLOSING;
      DelimiterAt(pre, d, CLOSING);
      DashesBehind(boundary);
      ScanClosing(s, d, |pre|);
      rest := Slices(s, ArenaSpans(s, d, |pre| + 1, |pre| + |d|));
      assert Chunks(parts) + rest == rest;
    } else {
      var c, after := Chunk(parts[0]), AfterFirst(boundary, parts[1..]);
      var next := |pre| + |d| + |c|;
      rest := ScanPrinted(pre + d + c, boundary, parts[1..]);
      assert s == pre + d + c + d + after;
      ScanOneChunk(pre, d, c, after, parts[0]);
      Assoc([c], Chunks(parts[1..]), rest);
    }
  }

  lemma DashesBehind(boundary: Text)
    ensures Dashes(Delimiter(boundary)) ==> Dashes(boundary)
  {
    if Dashes(Delimiter(boundary)) {
      forall k | 0 <= k < |boundary| ensures boundary[k] == 45 {
        assert Delimiter(boundary)[k + 2] == boundary[k];
      }
    }
  }

  lemma ScanOneChunk(pre: seq<Byte>, d: seq<Byte>, c: seq<Byte>, after: seq<Byte>, p: Part)
    requires CR !in d && LF !in d && |d| >= 2
    requires c == Chunk(p) && !Occurs(c, d)
    ensures var s, next := pre + d + (c + d + after), |pre| + |d| + |c|;
            Slices(s, ArenaSpans(s, d, |pre| + 1, |pre| + |d|))
            == [c] + Slices(s, ArenaSpans(s, d, next + 1, next + |d|))
  {
    hide OccursAt, Occurs, ArenaSpans;
    var s, next := pre + d + (c + d + after), |pre| + |d| + |c|;
    ChunkBounds(p);
    forall j | |pre| + 1 <= j < next ensures !OccursAt(s, d, j) {
      NoneBetween(pre, d, c, after, j);
    }
    DelimiterAt(pre + d + c, d, after);
    Layers(pre, d, c, after);
    ScanCut(s, d, |pre| + 1, next, |pre| + |d|);
  }

  lemma Layers(pre: seq<Byte>, d: seq<Byte>, c: seq<Byte>, after: seq<Byte>)
    ensures pre + d + (c + d + after) == pre + d + c + d + after
    ensures (pre + d + (c + d + after))[|pre| + |d|..|pre| + |d| + |c|] == c
  {
  }

  lemma ChunkBounds(p: Part)
    ensures var c := Chunk(p); |c| >= 2 && c[0] == CR && c[|c| - 1] == LF
  {
  }

  lemma DelimiterAt(a: seq<Byte>, d: seq<Byte>, b: seq<Byte>)
    ensures OccursAt(a + d + b, d, |a|)
  {
  }

  /** The slices handed to the zero-copy parser: the printed parts, and a leftover only behind dashes. */
  lemma ArenaPartsOfPrinted(boundary: Text, parts: seq<Part>) returns (rest: seq<seq<Byte>>)
    requires CR !in boundary && LF !in boundary && Separated(boundary, parts)
    ensures ArenaParts(Printed(boundary, parts), Delimiter(boundary)) == Chunks(parts) + rest
    ensures Leftover(rest) && (rest == [] || Dashes(boundary))
  {
    hide Dashes, Chunks, AfterFirst, Separated, Leftover, Delimiter, Printed, ArenaSpans, ArenaParts, OccursAt;
    var d := Delimiter(boundary);
    var after := AfterFirst(boundary, parts);
    PrintedIs(boundary, parts);
    NothingBefore(d, after);
    DelimiterAt([], d, after);
    rest := ScanPrinted([], boundary, parts);
    DelimiterIsLong(boundary);
    FirstDelimiter(d + after, d);
  }

  lemma DelimiterIsLong(boundary: Text)
    ensures |Delimiter(boundary)| >= 2
  {
  }

  lemma NothingBefore(d: seq<Byte>, after: seq<Byte>)
    ensures [] + d + after == d + after
  {
  }

  lemma FirstDelimiter(s: seq<Byte>, d: seq<Byte>)
    requires OccursAt(s, d, 0) && s != []
    ensures ArenaParts(s, d) == Slices(s, ArenaSpans(s, d, 1, |d|))
  {
  }

  // ----- a leftover says nothing

  lemma {:induction false} PiecesWithout(s: seq<Byte>, d: seq<Byte>, x: Byte)
    requires d != [] && x !in s
    ensures forall k :: 0 <= k < |Pieces(s, d)| ==> x !in Pieces(s, d)[k]
    decreases |s|
  {
    match Find(s, d)
    case None =>
    case Some(i) => PiecesWithout(s[i + |d|..], d, x);
  }

  lemma {:induction false} LinesWithoutColon(head: Head<Text>, lines: seq<Text>)
    requires forall k :: 0 <= k < |lines| ==> COLON !in lines[k]
    ensures ArenaLines(head, lines) == head
    decreases |lines|
  {
    hide Noted;
    if lines != [] {
      AbsentByte(lines[0], COLON_SPACE, COLON);
      FindOccurs(lines[0], COLON_SPACE);
      LinesWithoutColon(head, lines[1..]);
    }
  }

  lemma NoColonNoItem(part: seq<Byte>)
    requires COLON !in part && Find(part, HEADER_END).None? && forall k :: 0 <= k < |part| ==> part[k] < 0x80
    ensures ParseArenaPart(part) == Ok(ArenaNothing)
  {
    hide Pieces, ArenaLines, ValidUtf8;
    AsciiIsUtf8(part);
    PiecesWithout(part, CRLF, COLON);
    LinesWithoutColon(NoHead(), Pieces(part, CRLF));
  }

  lemma LeftoverAddsNothing(form: ArenaForm<Text>, rest: seq<seq<Byte>>)
    requires Leftover(rest)
    ensures AddArenaParts(form, rest) == Ok(form)
  {
    hide ParseArenaPart;
    if rest != [] {
      NoColonNoItem(rest[0]);
      assert rest[1..] == [];
    }
  }

  // ----- one printed part

  /** What the zero-copy parser reports for a part: it drops parts without a name. */
  function ArenaItemFor(p: Part): ArenaItem<Text> {
    if p.name == [] then ArenaNothing
    else
      match p.fileName
      case None => ArenaText(p.name, p.body + CRLF)
      case Some(f) => ArenaFile(ArenaPart(ArenaHeadFor(p), p.body + CRLF))
  }

  /** The header lines, as pairs of name and value, and the last content type among them. */
  function ArenaHeadFor(p: Part): Head<Text> {
    var headers := PairsOf(p.before) + [(p.key, ValueOf(p))] + PairsOf(p.after);
    Head(Some(p.name), p.fileName, TypeIn(headers), headers)
  }

  /** What a header line says: nothing when it is blank or holds no colon and space. */
  function PairOf(line: Text): seq<(Text, Text)> {
    if Trim(line) == [] then []
    else
      match Find(line, COLON_SPACE)
      case None => []
      case Some(c) => [(line[..c], line[c + 2..])]
  }

  function PairsOf(lines: seq<Text>): seq<(Text, Text)> {
    if lines == [] then [] else PairOf(lines[0]) + PairsOf(lines[1..])
  }

  /** `content-type`. */
  const TYPE_KEY: Text := [99, 111, 110, 116, 101, 110, 116, 45, 116, 121, 112, 101]

  /** The value of the last content type header. */
  function TypeIn(headers: seq<(Text, Text)>): Option<Text> {
    if headers == [] then None
    else
      var last := headers[|headers| - 1];
      if Spells(TYPE_KEY, last.0) then Some(last.1) else TypeIn(headers[..|headers| - 1])
  }

  // ----- header lines other than the disposition

  /** A header with these lines read, and nothing said about name and file name since `head`. */
  function WithLine(head: Head<Text>, pairs: seq<(Text, Text)>): Head<Text> {
    head.(contentType := TypeIn(head.headers + pairs), headers := head.headers + pairs)
  }

  /** The content type of a head is the last one among its headers. */
  ghost predicate Typed(head: Head<Text>) {
    head.contentType == TypeIn(head.headers)
  }

  lemma TypeKeyIs(name: Text)
    ensures Spells(TYPE_KEY, name) <==> EqIgnoreCase(name, CONTENT_TYPE)
  {
    assert CONTENT_TYPE == TYPE_KEY;
    SpellsIs(TYPE_KEY, name);
  }

  lemma TypePush(headers: seq<(Text, Text)>, name: Text, value: Text)
    ensures TypeIn(headers + [(name, value)]) == if Spells(TYPE_KEY, name) then Some(value) else TypeIn(headers)
  {
    assert (headers + [(name, value)])[..|headers|] == headers;
  }

  /** Any other line leaves name and file name as they are, and adds what it says to the headers. */
  lemma OtherLineNoted(head: Head<Text>, line: Text)
    requires !Dispositional(line) && Typed(head)
    ensures ArenaLine(head, line) == WithLine(head, PairOf(line)) && Typed(ArenaLine(head, line))
  {
    hide Find, Trim, Extract, Spells, EqIgnoreCase, TypeIn;
    match Find(line, COLON_SPACE) {
      case None =>
        assert head.headers + [] == head.headers;
      case Some(c) =>
        TypeKeyIs(line[..c]);
        TypePush(head.headers, line[..c], line[c + 2..]);
        KeyIs(line[..c]);
        assert head.headers + [] == head.headers;
    }
  }

  lemma {:induction false} OtherLinesNoted(head: Head<Text>, lines: seq<Text>, rest: seq<Text>)
    requires OtherLines(lines) && Typed(head)
    ensures ArenaLines(head, lines + rest) == ArenaLines(WithLine(head, PairsOf(lines)), rest)
    decreases |lines|
  {
    hide ArenaLine, PairOf, TypeIn, Dispositional, ValidUtf8;
    if lines == [] {
      assert lines + rest == rest && head.headers + [] == head.headers;
    } else {
      assert OtherLine(lines[0]);
      OtherLineNoted(head, lines[0]);
      assert (lines + rest)[1..] == lines[1..] + rest;
      OtherLinesNoted(ArenaLine(head, lines[0]), lines[1..], rest);
      Assoc(head.headers, PairOf(lines[0]), PairsOf(lines[1..]));
    }
  }

  /** A name in front of a header's colon: visible characters, and no colon among them. */
  predicate FieldName(name: Text) {
    name != [] && forall k :: 0 <= k < |name| ==> 33 <= name[k] < 127 && name[k] != 58
  }

  /** A header as any sender writes it: its pair is kept, and a content type, in any case, is noted. */
  lemma PrintedHeaderNoted(head: Head<Text>, name: Text, value: Text)
    requires FieldName(name) && !Spells(DISPOSITION_KEY, name)
    ensures ArenaLine(head, name + [58, 32] + value)
         == head.(contentType := if Spells(TYPE_KEY, name) then Some(value) else head.contentType,
                  headers := head.headers + [(name, value)])
  {
    hide Find, Trim, Spells, EqIgnoreCase;
    var line := name + [58, 32] + value;
    ColonAfter(name, value);
    NotBlank(line);
    KeyIs(name);
    TypeKeyIs(name);
    assert line[..|name|] == name && line[|name| + 2..] == value;
  }

  lemma ColonAfter(name: Text, value: Text)
    requires COLON !in name
    ensures Find(name + COLON_SPACE + value, COLON_SPACE) == Some(|name|)
  {
    var s := name + COLON_SPACE + value;
    assert s[|name|..|name| + 2] == COLON_SPACE;
    forall j | 0 <= j < |name| ensures !OccursAt(s, COLON_SPACE, j) {
      FirstTwo(s, COLON_SPACE, j);
    }
    FindIs(s, COLON_SPACE, |name|);
  }

  /** Trimming stops at a visible character. */
  lemma NotBlank(line: Text)
    requires line != [] && 33 <= line[0] < 127
    ensures Trim(line) != []
  {
    assert LeadingSpace(line) == 0;
    assert line[0..] == line;
    TrailingStops(line);
  }

  lemma {:induction false} TrailingStops(s: Text)
    requires s != [] && 33 <= s[0] < 127
    ensures TrailingSpace(s) < |s|
    decreases |s|
  {
    var k := SpaceAtEnd(s);
    if k != 0 {
      TrailingStops(s[..|s| - k]);
    }
  }

  lemma KeyOf(key: Text, text: Text)
    requires Word(key) && NoQuoteAtEnds(text)
    ensures var part := Trim(Param(key, text)); HasKey(part, key) && Unquote(part[|key| + 1..]) == text
  {
    hide Trim, Unquote;
    TrimParam(key, text);
    UnquoteQuoted(text);
    var part := key + [EQUALS] + Quoted(text);
    assert part[..|key|] == key && part[|key| + 1..] == Quoted(text);
  }

  lemma NotFilename(text: Text)
    ensures !HasKey(Trim(Param(NAME, text)), FILENAME)
  {
    hide Trim;
    TrimParam(NAME, text);
    var part := NAME + [EQUALS] + Quoted(text);
    assert part[0] == 110;
  }

  lemma FormDataHasNoKey()
    ensures !HasKey(Trim(FORM_DATA_VALUE), NAME) && !HasKey(Trim(FORM_DATA_VALUE), FILENAME)
  {
  }

  /** The first of three parameters never matches, so the others decide. */
  lemma ExtractSkips(first: Text, rest: seq<Text>, key: Text)
    requires !HasKey(Trim(first), key)
    ensures Extract([first] + rest, key) == Extract(rest, key)
  {
  }

  lemma ParametersFound(p: Part)
    requires SimplePart(p)
    ensures Extract(Pieces(ValueOf(p), SEMI), NAME) == Some(p.name)
    ensures Extract(Pieces(ValueOf(p), SEMI), FILENAME) == p.fileName
  {
    hide Pieces, SimpleName, Trim, Unquote, HasKey, ValueOf, Param;
    ValuePieces(p);
    SimpleEnds(p.name);
    var name := Param(NAME, p.name);
    var rest := match p.fileName case None => [] case Some(f) => [Param(FILENAME, f)];
    assert Pieces(ValueOf(p), SEMI) == [FORM_DATA_VALUE] + ([name] + rest);
    FormDataHasNoKey();
    ExtractSkips(FORM_DATA_VALUE, [name] + rest, NAME);
    ExtractSkips(FORM_DATA_VALUE, [name] + rest, FILENAME);
    KeyOf(NAME, p.name);
    NotFilename(p.name);
    ExtractSkips(name, rest, FILENAME);
    if p.fileName.Some? {
      SimpleEnds(p.fileName.value);
      KeyOf(FILENAME, p.fileName.value);
    }
  }

  lemma LineColon(p: Part)
    requires Spells(DISPOSITION_KEY, p.key)
    ensures Find(LineOf(p), COLON_SPACE) == Some(19)
    ensures LineOf(p)[..19] == p.key && LineOf(p)[21..] == ValueOf(p)
  {
    hide Find, ValueOf, Spells;
    KeyIs(p.key);
    KeyColon(p.key);
    FindInPrefix(p.key + COLON_SPACE, ValueOf(p), COLON_SPACE);
  }

  lemma LineIsText(p: Part)
    requires Spells(DISPOSITION_KEY, p.key)
    ensures Trim(LineOf(p)) != []
  {
    hide Trim, ValueOf, Spells;
    KeyIs(p.key);
    NotBlank(LineOf(p));
  }

  lemma ArenaLineReads(head: Head<Text>, p: Part)
    requires SimplePart(p) && Typed(head)
    ensures ArenaLine(head, LineOf(p))
         == WithLine(head, [(p.key, ValueOf(p))]).(
              name := Some(p.name), fileName := Newer(p.fileName, head.fileName))
    ensures Typed(ArenaLine(head, LineOf(p)))
  {
    hide Pieces, Find, Trim, Extract, ValueOf, SimpleName, LineOf, Spells, EqIgnoreCase, TypeIn, OtherLines;
    LineIsText(p);
    LineColon(p);
    ParametersFound(p);
    KeyIs(p.key);
    KeyIsNoType(p.key);
    TypePush(head.headers, p.key, ValueOf(p));
  }

  lemma KeyIsNoType(key: Text)
    requires Spells(DISPOSITION_KEY, key)
    ensures !Spells(TYPE_KEY, key)
  {
  }

  lemma ArenaLinesGiveHead(p: Part)
    requires SimplePart(p)
    ensures ArenaLines(NoHead(), [[]] + LinesOf(p)) == ArenaHeadFor(p)
  {
    hide ArenaLine, ArenaLines, LineOf, SimpleName, ValueOf, PairsOf, TypeIn, OtherLines, Spells;
    ArenaEmptyLine(NoHead());
    NextArenaLine(NoHead(), [], LinesOf(p));
    NoType();
    Assoc(p.before, [LineOf(p)], p.after);
    OtherLinesNoted(NoHead(), p.before, [LineOf(p)] + p.after);
    var first := WithLine(NoHead(), PairsOf(p.before));
    ArenaLineReads(first, p);
    NextArenaLine(first, LineOf(p), p.after);
    OtherLinesNoted(ArenaLine(first, LineOf(p)), p.after, []);
    assert p.after + [] == p.after && [] + PairsOf(p.before) == PairsOf(p.before);
    NoMoreArenaLines(ArenaHeadFor(p));
  }

  lemma NoType()
    ensures Typed(NoHead())
  {
  }

  lemma NextArenaLine(head: Head<Text>, line: Text, rest: seq<Text>)
    ensures ArenaLines(head, [line] + rest) == ArenaLines(ArenaLine(head, line), rest)
  {
  }

  lemma NoMoreArenaLines(head: Head<Text>)
    ensures ArenaLines(head, []) == head
  {
  }

  lemma ArenaEmptyLine(head: Head<Text>)
    ensures ArenaLine(head, []) == head
  {
  }

  /**
   The header of a printed part with any body behind its empty line: a file is kept even without
   content, a text is not, and neither is kept without a name.
   */
  lemma AnyBodyParses(p: Part, body: seq<Byte>)
    requires SimplePart(p)
    ensures ParseArenaPart(CRLF + Join(LinesOf(p), CRLF) + [13, 10, 13, 10] + body)
         == Ok(if p.name == [] then ArenaNothing
               else match p.fileName
                    case Some(_) => ArenaFile(ArenaPart(ArenaHeadFor(p), body))
                    case None => if body == [] then ArenaNothing else ArenaText(p.name, body))
  {
    hide Pieces, LinesOf, ArenaLines, ValidUtf8, SimplePart, Find, Join, ArenaHeadFor;
    var header := CRLF + Join(LinesOf(p), CRLF);
    var part := header + HEADER_END + body;
    LinesAreText(p);
    ChunkHeader(LinesOf(p), body);
    HeaderIsUtf8(p);
    HeaderPieces(LinesOf(p));
    ArenaLinesGiveHead(p);
    HeadNamed(p);
    assert part[..|header|] == header && part[|header| + 4..] == body;
  }

  /** Names may hold what confuses the standard parser: `: `, `filename=`, or an empty file name. */
  lemma ArenaPartParses(p: Part)
    requires SimplePart(p)
    ensures ParseArenaPart(Chunk(p)) == Ok(ArenaItemFor(p))
  {
    hide LinesOf, SimplePart, Join, ArenaHeadFor, ParseArenaPart;
    AnyBodyParses(p, p.body + CRLF);
  }

  lemma HeadNamed(p: Part)
    ensures ArenaHeadFor(p).name == Some(p.name) && ArenaHeadFor(p).fileName == p.fileName
  {
  }

  // ----- the whole form

  function ArenaItemTexts(item: ArenaItem<Text>): seq<(Text, Text)> {
    match item case ArenaText(n, v) => [(n, v)] case _ => []
  }

  function ArenaItemFiles(item: ArenaItem<Text>): seq<ArenaPart<Text>> {
    match item case ArenaFile(part) => [part] case _ => []
  }

  function ArenaTextsOf(parts: seq<Part>): seq<(Text, Text)> {
    if parts == [] then []
    else
      ArenaItemTexts(ArenaItemFor(parts[0])) + ArenaTextsOf(parts[1..])
  }

  function ArenaFilesOf(parts: seq<Part>): seq<ArenaPart<Text>> {
    if parts == [] then []
    else ArenaItemFiles(ArenaItemFor(parts[0])) + ArenaFilesOf(parts[1..])
  }

  function ArenaFormOf(parts: seq<Part>): ArenaForm<Text> {
    ArenaForm(ArenaTextsOf(parts), ArenaFilesOf(parts))
  }

  lemma {:induction false} ArenaChunksParse(form: ArenaForm<Text>, parts: seq<Part>, rest: seq<seq<Byte>>)
    requires forall k :: 0 <= k < |parts| ==> SimplePart(parts[k])
    ensures AddArenaParts(form, Chunks(parts) + rest)
         == AddArenaParts(ArenaForm(form.textFields + ArenaTextsOf(parts), form.parts + ArenaFilesOf(parts)), rest)
    decreases |parts|
  {
    hide ParseArenaPart, Chunk, SimplePart, ArenaItemFor;
    if parts == [] {
      assert Chunks(parts) + rest == rest;
      assert form.textFields + [] == form.textFields && form.parts + [] == form.parts;
    } else {
      var p := parts[0];
      ArenaPartParses(p);
      var next := AddArenaItem(form, ArenaItemFor(p));
      Assoc([Chunk(p)], Chunks(parts[1..]), rest);
      assert ([Chunk(p)] + (Chunks(parts[1..]) + rest))[1..] == Chunks(parts[1..]) + rest;
      ArenaChunksParse(next, parts[1..], rest);
      ArenaItemAdds(form, p, parts[1..]);
      assert [p] + parts[1..] == parts;
    }
  }

  lemma AddArenaItemIs(form: ArenaForm<Text>, item: ArenaItem<Text>)
    ensures AddArenaItem(form, item)
         == ArenaForm(form.textFields + ArenaItemTexts(item), form.parts + ArenaItemFiles(item))
  {
  }

  lemma ArenaItemAdds(form: ArenaForm<Text>, p: Part, parts: seq<Part>)
    ensures var next := AddArenaItem(form, ArenaItemFor(p));
            && next.textFields + ArenaTextsOf(parts) == form.textFields + ArenaTextsOf([p] + parts)
            && next.parts + ArenaFilesOf(parts) == form.parts + ArenaFilesOf([p] + parts)
  {
    hide ArenaItemFor, ArenaItemTexts, ArenaItemFiles, AddArenaItem;
    var item := ArenaItemFor(p);
    AddArenaItemIs(form, item);
    assert ([p] + parts)[1..] == parts;
    Assoc(form.textFields, ArenaItemTexts(item), ArenaTextsOf(parts));
    Assoc(form.parts, ArenaItemFiles(item), ArenaFilesOf(parts));
  }

  /** The zero-copy parser on a printed body: every named part, in order, its body and the CRLF after it. */
  lemma PrintedBodyParsesInArena(boundary: Text, parts: seq<Part>)
    requires CR !in boundary && LF !in boundary && Separated(boundary, parts)
    requires forall k :: 0 <= k < |parts| ==> SimplePart(parts[k])
    ensures ParseArenaBody(boundary, Printed(boundary, parts)) == Ok(ArenaFormOf(parts))
  {
    hide AddArenaParts, ArenaParts, Chunks, ArenaTextsOf, ArenaFilesOf, Printed, Separated, SimplePart, Leftover;
    var rest := ArenaPartsOfPrinted(boundary, parts);
    ArenaChunksParse(EmptyForm(), parts, rest);
    assert [] + ArenaTextsOf(parts) == ArenaTextsOf(parts) && [] + ArenaFilesOf(parts) == ArenaFilesOf(parts);
    LeftoverAddsNothing(ArenaFormOf(parts), rest);
  }

  // ----- the standard form is the zero-copy form, trimmed

  function OrEmpty(o: Option<Text>): Text {
    match o case None => [] case Some(t) => t
  }

  function TrimmedTexts(texts: seq<(Text, Text)>): (r: seq<(Text, seq<Byte>)>)
    ensures |r| == |texts|
  {
    if texts == [] then [] else [(texts[0].0, TrimLineEnds(texts[0].1))] + TrimmedTexts(texts[1..])
  }

  function TrimmedFiles(parts: seq<ArenaPart<Text>>): (r: seq<FilePart>)
    ensures |r| == |parts|
  {
    if parts == [] then []
    else
      [FilePart(OrEmpty(parts[0].head.name), OrEmpty(parts[0].head.fileName), TrimLineEnds(parts[0].body))]
      + TrimmedFiles(parts[1..])
  }

  /** The copying form that a zero-copy form amounts to. */
  function Trimmed(form: ArenaForm<Text>): Form {
    Form(TrimmedTexts(form.textFields), TrimmedFiles(form.parts))
  }

  /** The item that a part becomes in the trimmed zero-copy form. */
  function TrimmedItem(p: Part): Item {
    if p.name == [] then NoItem
    else
      match p.fileName
      case None => TextItem(p.name, TrimLineEnds(p.body))
      case Some(f) => FileItem(FilePart(p.name, f, TrimLineEnds(p.body)))
  }

  lemma TrimmedStep(p: Part, parts: seq<Part>)
    ensures TrimmedTexts(ArenaTextsOf([p] + parts)) == ItemTexts(TrimmedItem(p)) + TrimmedTexts(ArenaTextsOf(parts))
    ensures TrimmedFiles(ArenaFilesOf([p] + parts)) == ItemFiles(TrimmedItem(p)) + TrimmedFiles(ArenaFilesOf(parts))
  {
    hide TrimLineEnds;
    TrimPrintedBody(p.body);
    assert ([p] + parts)[1..] == parts;
    assert [] + ArenaTextsOf(parts) == ArenaTextsOf(parts);
    assert [] + ArenaFilesOf(parts) == ArenaFilesOf(parts);
  }

  /** Both parsers keep the part, or both drop it. */
  predicate SameFate(p: Part) {
    p.name == [] <==> Lost(p)
  }

  lemma {:induction false} SameFateAgrees(parts: seq<Part>)
    requires forall k :: 0 <= k < |parts| ==> SameFate(parts[k])
    ensures Trimmed(ArenaFormOf(parts)) == Form(TextsOf(parts), FilesOf(parts))
    decreases |parts|
  {
    hide Lost, TrimLineEnds, ItemTexts, ItemFiles;
    if parts != [] {
      SameFateAgrees(parts[1..]);
      TrimmedStep(parts[0], parts[1..]);
      assert SameFate(parts[0]);
      assert [parts[0]] + parts[1..] == parts;
    }
  }

  predicate Holds(form: Form, item: Item) {
    match item
    case TextItem(name, value) => (name, value) in form.textFields
    case FileItem(part) => part in form.parts
    case NoItem => true
  }

  lemma {:induction false} StandardHolds(parts: seq<Part>, k: nat)
    requires k < |parts|
    ensures Holds(Form(TextsOf(parts), FilesOf(parts)), ItemFor(parts[k]))
    decreases |parts|
  {
    hide ItemFor;
    if k > 0 {
      StandardHolds(parts[1..], k - 1);
    }
  }

  lemma {:induction false} ArenaHolds(parts: seq<Part>, k: nat)
    requires k < |parts|
    ensures Holds(Trimmed(ArenaFormOf(parts)), TrimmedItem(parts[k]))
    decreases |parts|
  {
    hide TrimmedItem;
    TrimmedStep(parts[0], parts[1..]);
    assert [parts[0]] + parts[1..] == parts;
    if k > 0 {
      ArenaHolds(parts[1..], k - 1);
    }
  }

  ghost predicate NoneLost(form: Form) {
    && (forall t :: t in form.textFields ==> !Contains(t.0, FILENAME_EQ))
    && (forall f :: f in form.parts ==> f.fileName != [])
  }

  ghost predicate AllNamed(form: Form) {
    && (forall t :: t in form.textFields ==> t.0 != [])
    && (forall f :: f in form.parts ==> f.name != [])
  }

  lemma {:induction false} StandardNoneLost(parts: seq<Part>)
    ensures NoneLost(Form(TextsOf(parts), FilesOf(parts)))
    decreases |parts|
  {
    hide TrimLineEnds, Contains;
    if parts != [] {
      StandardNoneLost(parts[1..]);
    }
  }

  lemma {:induction false} ArenaAllNamed(parts: seq<Part>)
    ensures AllNamed(Trimmed(ArenaFormOf(parts)))
    decreases |parts|
  {
    hide TrimLineEnds;
    if parts != [] {
      ArenaAllNamed(parts[1..]);
      TrimmedStep(parts[0], parts[1..]);
      assert [parts[0]] + parts[1..] == parts;
    }
  }

  lemma OneFormSameFate(form: Form, p: Part)
    requires NoneLost(form) && AllNamed(form)
    requires Holds(form, ItemFor(p)) && Holds(form, TrimmedItem(p))
    ensures SameFate(p)
  {
  }

  /**
   The two parsers agree on a printed body, up to trimming, exactly when each part has a name,
   no text name holds `filename=`, and no file name is empty, or a part fails on both counts.
   */
  lemma ParsersAgreeIff(boundary: Text, parts: seq<Part>)
    requires CR !in boundary && LF !in boundary && Separated(boundary, parts)
    requires forall k :: 0 <= k < |parts| ==> PlainPart(parts[k])
    ensures var body := Printed(boundary, parts);
            && ParseArenaBody(boundary, body).Ok?
            && (Trimmed(ParseArenaBody(boundary, body).value) == ParseBody(boundary, body)
                <==> forall k :: 0 <= k < |parts| ==> SameFate(parts[k]))
  {
    hide ParseArenaBody, ParseBody, Printed, PlainPart, SimplePart, Separated, SameFate;
    hide TextsOf, FilesOf, ArenaTextsOf, ArenaFilesOf, TrimmedTexts, TrimmedFiles;
    forall k | 0 <= k < |parts| ensures SimplePart(parts[k]) {
      PlainIsSimple(parts[k]);
    }
    PrintedBodyParsesInArena(boundary, parts);
    PrintedBodyParses(boundary, parts);
    if Trimmed(ArenaFormOf(parts)) == Form(TextsOf(parts), FilesOf(parts)) {
      forall k | 0 <= k < |parts| ensures SameFate(parts[k]) {
        StandardHolds(parts, k);
        ArenaHolds(parts, k);
        StandardNoneLost(parts);
        ArenaAllNamed(parts);
        OneFormSameFate(Trimmed(ArenaFormOf(parts)), parts[k]);
      }
    } else if forall k :: 0 <= k < |parts| ==> SameFate(parts[k]) {
      SameFateAgrees(parts);
    }
  }

  /** A body that any sender lays out so, sent under the matching content type, and parsed in place. */
  method ParsePrintedInArena(boundary: Text, ghost parts: seq<Part>, arena: seq<Byte>)
    returns (r: Result<Option<ArenaForm<Span>>, ArenaError>)
    requires arena == Printed(boundary, parts)
    requires PlainText(boundary) && !Occurs(boundary, BOUNDARY_EQ)
    requires Separated(boundary, parts)
    requires forall k :: 0 <= k < |parts| ==> SimplePart(parts[k])
    ensures r.Ok? && r.value.Some? && FormWithin(r.value.value, arena)
    ensures FormText(arena, r.value.value) == ArenaFormOf(parts)
  {
    hide ParseArenaBody, Printed, ArenaFormOf, BoundaryOf, Separated, SimplePart, FormText, FormWithin;
    BoundaryFound(boundary);
    TypeIsFormData(boundary);
    PrintedBodyParsesInArena(boundary, parts);
    r := GetMultiPartArena(Some(ContentTypeOf(boundary)), arena);
  }

  /** Print, send under the matching content type, and parse without copying. */
  method PrintAndParseInArena(boundary: Text, fields: seq<Field>)
    returns (arena: seq<Byte>, r: Result<Option<ArenaForm<Span>>, ArenaError>)
    requires PlainText(boundary) && !Occurs(boundary, BOUNDARY_EQ)
    requires Separated(boundary, PartsOf(fields))
    requires forall k :: 0 <= k < |fields| ==> SimpleField(fields[k])
    ensures arena == Printed(boundary, PartsOf(fields))
    ensures r.Ok? && r.value.Some? && FormWithin(r.value.value, arena)
    ensures FormText(arena, r.value.value) == ArenaFormOf(PartsOf(fields))
  {
    hide ParseArenaBody, Printed, ArenaFormOf, BoundaryOf, Separated, SimplePart, SimpleField, FormText, FormWithin;
    arena := MakeMultipartBody(boundary, fields);
    forall k | 0 <= k < |fields| ensures SimplePart(PartsOf(fields)[k]) {
      SimpleFieldPrints(fields[k]);
    }
    r := ParsePrintedInArena(boundary, PartsOf(fields), arena);
  }
}
