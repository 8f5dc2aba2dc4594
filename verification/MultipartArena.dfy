/**
 The zero-copy multipart parser. Everything it reports is a span of the arena; what the spans
 hold is specified on the byte strings they cut out.
 */
module MultipartArena {
  import opened Bytes
  import opened Search
  import opened HeaderText
  import opened Multipart
  import opened Split

  const CONTENT_TYPE: Text := Ascii("content-type")

  datatype ArenaError = NotAscii | NoBoundary | BadUtf8

  /** What the headers of a part have said; `T` is `Span` in the arena and `Text` in the specification. */
  datatype Head<T> = Head(name: Option<T>, fileName: Option<T>, contentType: Option<T>, headers: seq<(T, T)>)

  datatype ArenaPart<T> = ArenaPart(head: Head<T>, body: T)

  datatype ArenaForm<T> = ArenaForm(textFields: seq<(T, T)>, parts: seq<ArenaPart<T>>)

  // ----- spans and what they hold

  predicate WithinOption(o: Option<Span>, s: seq<Byte>) {
    o.Some? ==> Within(o.value, s)
  }

  predicate HeadWithin(h: Head<Span>, s: seq<Byte>) {
    && WithinOption(h.name, s) && WithinOption(h.fileName, s) && WithinOption(h.contentType, s)
    && forall k :: 0 <= k < |h.headers| ==> Within(h.headers[k].0, s) && Within(h.headers[k].1, s)
  }

  predicate FormWithin(f: ArenaForm<Span>, s: seq<Byte>) {
    && (forall k :: 0 <= k < |f.textFields| ==> Within(f.textFields[k].0, s) && Within(f.textFields[k].1, s))
    && (forall k :: 0 <= k < |f.parts| ==> HeadWithin(f.parts[k].head, s) && Within(f.parts[k].body, s))
  }

  function OptionText(s: seq<Byte>, o: Option<Span>): Option<Text>
    requires WithinOption(o, s)
  {
    match o
    case None => None
    case Some(span) => Some(Slice(s, span))
  }

  function PairTexts(s: seq<Byte>, pairs: seq<(Span, Span)>): (r: seq<(Text, Text)>)
    requires forall k :: 0 <= k < |pairs| ==> Within(pairs[k].0, s) && Within(pairs[k].1, s)
    ensures |r| == |pairs|
  {
    seq(|pairs|, k requires 0 <= k < |pairs| => (Slice(s, pairs[k].0), Slice(s, pairs[k].1)))
  }

  function HeadText(s: seq<Byte>, h: Head<Span>): Head<Text>
    requires HeadWithin(h, s)
  {
    Head(OptionText(s, h.name), OptionText(s, h.fileName), OptionText(s, h.contentType), PairTexts(s, h.headers))
  }

  function FormText(s: seq<Byte>, f: ArenaForm<Span>): ArenaForm<Text>
    requires FormWithin(f, s)
  {
    ArenaForm(
      PairTexts(s, f.textFields),
      seq(|f.parts|, k requires 0 <= k < |f.parts| =>
        ArenaPart(HeadText(s, f.parts[k].head), Slice(s, f.parts[k].body))))
  }

  /** A slice of a slice is a slice of the arena. */
  function Sub(span: Span, lo: nat, hi: nat): (r: Span)
    requires lo <= hi
  {
    Span(span.lo + lo, span.lo + hi)
  }

  lemma SubSlice(s: seq<Byte>, span: Span, lo: nat, hi: nat)
    requires Within(span, s) && lo <= hi <= span.hi - span.lo
    ensures Within(Sub(span, lo, hi), s)
    ensures Slice(s, Sub(span, lo, hi)) == Slice(s, span)[lo..hi]
  {
  }

  /** `split` on a slice, as spans. */
  function PieceSpans(s: seq<Byte>, span: Span, d: seq<Byte>): seq<Span>
    requires Within(span, s) && d != []
    decreases span.hi - span.lo
  {
    match Find(Slice(s, span), d)
    case None => [span]
    case Some(i) => [Sub(span, 0, i)] + PieceSpans(s, Span(span.lo + i + |d|, span.hi), d)
  }

  lemma {:induction false} PieceSpansSlices(s: seq<Byte>, span: Span, d: seq<Byte>)
    requires Within(span, s) && d != []
    ensures forall k :: 0 <= k < |PieceSpans(s, span, d)| ==> Within(PieceSpans(s, span, d)[k], s)
    ensures Slices(s, PieceSpans(s, span, d)) == Pieces(Slice(s, span), d)
    decreases span.hi - span.lo
  {
    hide Pieces, Find, Sub;
    var t := Slice(s, span);
    match Find(t, d)
    case None =>
      PiecesWhole(t, d);
    case Some(i) =>
      var rest := Span(span.lo + i + |d|, span.hi);
      PieceSpansSlices(s, rest, d);
      SubSlice(s, span, 0, i);
      assert Slice(s, rest) == t[i + |d|..];
      assert t[0..i] == t[..i];
      PiecesCut(t, d, i);
  }

  function TrimSpan(s: seq<Byte>, span: Span): Span
    requires Within(span, s)
  {
    var b := TrimBounds(Slice(s, span));
    Sub(span, b.0, b.1)
  }

  function UnquoteSpan(s: seq<Byte>, span: Span): Span
    requires Within(span, s)
  {
    var b := TrimRunBounds(Slice(s, span), DOUBLE_QUOTE);
    var inner := Sub(span, b.0, b.1);
    SubSlice(s, span, b.0, b.1);
    var c := TrimRunBounds(Slice(s, inner), SINGLE_QUOTE);
    Sub(inner, c.0, c.1)
  }

  lemma TrimSpanSlice(s: seq<Byte>, span: Span)
    requires Within(span, s)
    ensures Within(TrimSpan(s, span), s) && Slice(s, TrimSpan(s, span)) == Trim(Slice(s, span))
  {
    hide TrimBounds;
    var b := TrimBounds(Slice(s, span));
    SubSlice(s, span, b.0, b.1);
  }

  lemma UnquoteSpanSlice(s: seq<Byte>, span: Span)
    requires Within(span, s)
    ensures Within(UnquoteSpan(s, span), s) && Slice(s, UnquoteSpan(s, span)) == Unquote(Slice(s, span))
  {
    var b := TrimRunBounds(Slice(s, span), DOUBLE_QUOTE);
    var inner := Sub(span, b.0, b.1);
    SubSlice(s, span, b.0, b.1);
    var c := TrimRunBounds(Slice(s, inner), SINGLE_QUOTE);
    SubSlice(s, inner, c.0, c.1);
  }

  // ----- one parameter of a Content-Disposition value

  predicate HasKey(part: Text, key: Text) {
    |part| > |key| && part[|key|] == EQUALS && EqIgnoreCase(part[..|key|], key)
  }

  /** The value of the first parameter with this key. */
  function Extract(pieces: seq<Text>, key: Text): Option<Text>
    decreases |pieces|
  {
    if pieces == [] then None
    else
      var part := Trim(pieces[0]);
      if HasKey(part, key) then Some(Unquote(part[|key| + 1..])) else Extract(pieces[1..], key)
  }

  method ExtractContentDispositionValue(s: seq<Byte>, header: Span, key: Text) returns (r: Option<Span>)
    requires Within(header, s)
    ensures WithinOption(r, s)
    ensures OptionText(s, r) == Extract(Pieces(Slice(s, header), SEMI), key)
  {
    hide Pieces, PieceSpans, TrimSpan, UnquoteSpan, Trim, Unquote;
    var spans := PieceSpans(s, header, SEMI);
    PieceSpansSlices(s, header, SEMI);
    ghost var pieces := Pieces(Slice(s, header), SEMI);
    assert pieces[0..] == pieces;
    for i := 0 to |spans|
      invariant Extract(pieces[i..], key) == Extract(pieces, key)
    {
      assert pieces[i..][0] == pieces[i] && pieces[i..][1..] == pieces[i + 1..];
      assert pieces[i] == Slice(s, spans[i]);
      var span := TrimSpan(s, spans[i]);
      TrimSpanSlice(s, spans[i]);
      var part := Slice(s, span);
      if |part| > |key| && part[|key|] == EQUALS && EqIgnoreCase(part[..|key|], key) {
        SubSlice(s, span, |key| + 1, |part|);
        var value := Sub(span, |key| + 1, |part|);
        assert Slice(s, value) == part[|key| + 1..];
        UnquoteSpanSlice(s, value);
        return Some(UnquoteSpan(s, value));
      }
    }
    return None;
  }

  // ----- header lines

  function NoHead<T>(): Head<T> {
    Head(None, None, None, [])
  }

  function Newer<T>(latest: Option<T>, before: Option<T>): Option<T> {
    if latest.Some? then latest else before
  }

  function Noted(head: Head<Text>, name: Text, value: Text): Head<Text> {
    if EqIgnoreCase(name, DISPOSITION) then
      var pieces := Pieces(value, SEMI);
      head.(name := Newer(Extract(pieces, NAME), head.name),
            fileName := Newer(Extract(pieces, FILENAME), head.fileName))
    else if EqIgnoreCase(name, CONTENT_TYPE) then head.(contentType := Some(value))
    else head
  }

  function ArenaLine(head: Head<Text>, line: Text): Head<Text> {
    if Trim(line) == [] then head
    else
      match Find(line, COLON_SPACE)
      case None => head
      case Some(c) =>
        var noted := Noted(head, line[..c], line[c + 2..]);
        noted.(headers := noted.headers + [(line[..c], line[c + 2..])])
  }

  function ArenaLines(head: Head<Text>, lines: seq<Text>): Head<Text>
    decreases |lines|
  {
    if lines == [] then head else ArenaLines(ArenaLine(head, lines[0]), lines[1..])
  }

  lemma PairTextsPush(s: seq<Byte>, pairs: seq<(Span, Span)>, a: Span, b: Span)
    requires forall k :: 0 <= k < |pairs| ==> Within(pairs[k].0, s) && Within(pairs[k].1, s)
    requires Within(a, s) && Within(b, s)
    ensures PairTexts(s, pairs + [(a, b)]) == PairTexts(s, pairs) + [(Slice(s, a), Slice(s, b))]
  {
  }

  method NoteHeader(s: seq<Byte>, head: Head<Span>, name: Span, value: Span) returns (next: Head<Span>)
    requires HeadWithin(head, s) && Within(name, s) && Within(value, s)
    ensures HeadWithin(next, s) && next.headers == head.headers
    ensures HeadText(s, next) == Noted(HeadText(s, head), Slice(s, name), Slice(s, value))
  {
    hide Pieces, Extract;
    next := head;
    if EqIgnoreCase(Slice(s, name), DISPOSITION) {
      var found := ExtractContentDispositionValue(s, value, NAME);
      if found.Some? {
        next := next.(name := found);
      }
      var fileName := ExtractContentDispositionValue(s, value, FILENAME);
      if fileName.Some? {
        next := next.(fileName := fileName);
      }
    } else if EqIgnoreCase(Slice(s, name), CONTENT_TYPE) {
      next := next.(contentType := Some(value));
    }
  }

  method ReadArenaLine(s: seq<Byte>, head: Head<Span>, line: Span) returns (next: Head<Span>)
    requires HeadWithin(head, s) && Within(line, s)
    ensures HeadWithin(next, s)
    ensures HeadText(s, next) == ArenaLine(HeadText(s, head), Slice(s, line))
  {
    hide Noted, Trim;
    var text := Slice(s, line);
    if Trim(text) == [] {
      return head;
    }
    var colon := Find(text, COLON_SPACE);
    if colon.None? {
      return head;
    }
    var name, value := Sub(line, 0, colon.value), Sub(line, colon.value + 2, |text|);
    SubSlice(s, line, 0, colon.value);
    SubSlice(s, line, colon.value + 2, |text|);
    next := NoteHeader(s, head, name, value);
    PairTextsPush(s, next.headers, name, value);
    next := next.(headers := next.headers + [(name, value)]);
  }

  method ReadArenaHeader(s: seq<Byte>, header: Span) returns (head: Head<Span>)
    requires Within(header, s)
    ensures HeadWithin(head, s)
    ensures HeadText(s, head) == ArenaLines(NoHead(), Pieces(Slice(s, header), CRLF))
  {
    hide Pieces, PieceSpans, ArenaLine;
    head := NoHead();
    var lines := PieceSpans(s, header, CRLF);
    PieceSpansSlices(s, header, CRLF);
    ghost var texts := Pieces(Slice(s, header), CRLF);
    assert texts[0..] == texts;
    for i := 0 to |lines|
      invariant HeadWithin(head, s)
      invariant ArenaLines(HeadText(s, head), texts[i..]) == ArenaLines(NoHead(), texts)
    {
      assert texts[i..][0] == texts[i] == Slice(s, lines[i]) && texts[i..][1..] == texts[i + 1..];
      head := ReadArenaLine(s, head, lines[i]);
    }
  }

  // ----- one part

  /** What one part adds to the form. */
  datatype ArenaItem<T> = ArenaText(name: T, value: T) | ArenaFile(part: ArenaPart<T>) | ArenaNothing

  function ArenaItemOf(head: Head<Text>, body: Text): ArenaItem<Text> {
    if head.name.None? || head.name.value == [] then ArenaNothing
    else if head.fileName.Some? then ArenaFile(ArenaPart(head, body))
    else if body != [] then ArenaText(head.name.value, body)
    else ArenaNothing
  }

  function ParseArenaPart(part: seq<Byte>): Result<ArenaItem<Text>, ArenaError> {
    var hb := HeaderBody(part);
    if part == [] then Ok(ArenaNothing)
    else if !ValidUtf8(hb.0) then Err(BadUtf8)
    else Ok(ArenaItemOf(ArenaLines(NoHead(), Pieces(hb.0, CRLF)), hb.1))
  }

  predicate ItemWithin(item: ArenaItem<Span>, s: seq<Byte>) {
    match item
    case ArenaText(name, value) => Within(name, s) && Within(value, s)
    case ArenaFile(part) => HeadWithin(part.head, s) && Within(part.body, s)
    case ArenaNothing => true
  }

  function ItemText(s: seq<Byte>, item: ArenaItem<Span>): ArenaItem<Text>
    requires ItemWithin(item, s)
  {
    match item
    case ArenaText(name, value) => ArenaText(Slice(s, name), Slice(s, value))
    case ArenaFile(part) => ArenaFile(ArenaPart(HeadText(s, part.head), Slice(s, part.body)))
    case ArenaNothing => ArenaNothing
  }

  method ReadArenaPart(s: seq<Byte>, part: Span) returns (item: Result<ArenaItem<Span>, ArenaError>)
    requires Within(part, s)
    ensures item.Ok? ==> ItemWithin(item.value, s)
    ensures ParseArenaPart(Slice(s, part))
         == match item case Ok(i) => Ok(ItemText(s, i)) case Err(e) => Err(e)
  {
    hide Pieces, ArenaLines, ValidUtf8, PairTexts;
    var text := Slice(s, part);
    if text == [] {
      return Ok(ArenaNothing);
    }
    var header, body := SplitHeaderBodyArena(text);
    SubSlice(s, part, header.lo, header.hi);
    SubSlice(s, part, body.lo, body.hi);
    header, body := Sub(part, header.lo, header.hi), Sub(part, body.lo, body.hi);
    if !ValidUtf8(Slice(s, header)) {
      return Err(BadUtf8);
    }
    var head := ReadArenaHeader(s, header);
    if head.name.None? || Slice(s, head.name.value) == [] {
      return Ok(ArenaNothing);
    }
    if head.fileName.Some? {
      return Ok(ArenaFile(ArenaPart(head, body)));
    } else if Slice(s, body) != [] {
      return Ok(ArenaText(head.name.value, body));
    }
    return Ok(ArenaNothing);
  }

  // ----- the form

  function AddArenaItem<T>(form: ArenaForm<T>, item: ArenaItem<T>): ArenaForm<T> {
    match item
    case ArenaText(name, value) => form.(textFields := form.textFields + [(name, value)])
    case ArenaFile(part) => form.(parts := form.parts + [part])
    case ArenaNothing => form
  }

  /** The first part whose header is not UTF-8 ends the parse. */
  function AddArenaParts(form: ArenaForm<Text>, parts: seq<seq<Byte>>): Result<ArenaForm<Text>, ArenaError>
    decreases |parts|
  {
    if parts == [] then Ok(form)
    else
      match ParseArenaPart(parts[0])
      case Err(e) => Err(e)
      case Ok(item) => AddArenaParts(AddArenaItem(form, item), parts[1..])
  }

  function EmptyForm<T>(): ArenaForm<T> {
    ArenaForm([], [])
  }

  function ParseArenaBody(boundary: Text, body: seq<Byte>): Result<ArenaForm<Text>, ArenaError> {
    AddArenaParts(EmptyForm(), ArenaParts(body, Delimiter(boundary)))
  }

  lemma FormTextPush(s: seq<Byte>, form: ArenaForm<Span>, item: ArenaItem<Span>)
    requires FormWithin(form, s) && ItemWithin(item, s)
    ensures FormWithin(AddArenaItem(form, item), s)
    ensures FormText(s, AddArenaItem(form, item)) == AddArenaItem(FormText(s, form), ItemText(s, item))
  {
  }

  /** What a form of spans over `s` says, if there is one. */
  function FormRead(s: seq<Byte>, r: Result<ArenaForm<Span>, ArenaError>): Result<ArenaForm<Text>, ArenaError>
    requires r.Ok? ==> FormWithin(r.value, s)
  {
    match r case Ok(form) => Ok(FormText(s, form)) case Err(e) => Err(e)
  }

  method ReadArenaParts(s: seq<Byte>, parts: seq<Span>) returns (r: Result<ArenaForm<Span>, ArenaError>)
    requires forall k :: 0 <= k < |parts| ==> Within(parts[k], s)
    ensures r.Ok? ==> FormWithin(r.value, s)
    ensures FormRead(s, r) == AddArenaParts(EmptyForm(), Slices(s, parts))
  {
    hide ParseArenaPart, FormText, ItemText;
    var form := EmptyForm();
    ghost var texts := Slices(s, parts);
    assert texts[0..] == texts;
    EmptyFormText(s);
    for i := 0 to |parts|
      invariant FormWithin(form, s)
      invariant AddArenaParts(FormText(s, form), texts[i..]) == AddArenaParts(EmptyForm(), texts)
    {
      assert texts[i..][0] == texts[i] && texts[i..][1..] == texts[i + 1..];
      var item := ReadArenaPart(s, parts[i]);
      if item.Err? {
        return Err(item.error);
      }
      FormTextPush(s, form, item.value);
      form := AddArenaItem(form, item.value);
    }
    return Ok(form);
  }

  lemma EmptyFormText(s: seq<Byte>)
    ensures FormText(s, EmptyForm()) == EmptyForm()
  {
  }

  method GetMultiPartArena(contentType: Option<Text>, arena: seq<Byte>)
    returns (r: Result<Option<ArenaForm<Span>>, ArenaError>)
    ensures r.Ok? && r.value.Some? ==> FormWithin(r.value.value, arena)
    ensures match contentType
            case None => r == Ok(None)
            case Some(ct) =>
              if !PlainText(ct) then r == Err(NotAscii)
              else if !Contains(ct, FORM_DATA) then r == Ok(None)
              else match BoundaryOf(ct)
                   case None => r == Err(NoBoundary)
                   case Some(boundary) =>
                     match ParseArenaBody(boundary, arena)
                     case Err(e) => r == Err(e)
                     case Ok(texts) => r.Ok? && r.value.Some? && FormText(arena, r.value.value) == texts
  {
    hide Pieces, AddArenaParts, ArenaParts, FormText, FormWithin, Find, VisibleAscii, PlainText;
    if contentType.None? {
      return Ok(None);
    }
    var ct := contentType.value;
    VisibleIsPlain(ct);
    if !VisibleAscii(ct) {
      return Err(NotAscii);
    }
    if !Contains(ct, FORM_DATA) {
      return Ok(None);
    }
    var fields := Pieces(ct, BOUNDARY_EQ);
    if |fields| <= 1 {
      return Err(NoBoundary);
    }
    var parts := SplitBytesArena(arena, Delimiter(fields[1]));
    var form := ReadArenaParts(arena, parts);
    if form.Err? {
      return Err(form.error);
    }
    return Ok(Some(form.value));
  }
}
