/** The standard multipart/form-data parser. */
module Multipart {
  import opened Bytes
  import opened Search
  import opened HeaderText
  import Split

  type Text = seq<Byte>

  const DISPOSITION: Text := Ascii("content-disposition")
  const COLON_SPACE: Text := [58, 32]
  const SEMI: Text := [59]
  const EQUAL: Text := [61]
  const NAME: Text := Ascii("name")
  const FILENAME: Text := Ascii("filename")
  const NAME_EQ: Text := Ascii("name=")
  const FILENAME_EQ: Text := Ascii("filename=")
  const FORM_DATA: Text := Ascii("multipart/form-data")
  const BOUNDARY_EQ: Text := Ascii("boundary=")
  const DASHES: Text := [45, 45]

  datatype FilePart = FilePart(name: Text, fileName: Text, body: seq<Byte>)

  datatype Form = Form(textFields: seq<(Text, seq<Byte>)>, parts: seq<FilePart>)

  /** What one part of the body adds to a form. */
  datatype Item = TextItem(name: Text, value: seq<Byte>) | FileItem(part: FilePart) | NoItem

  /** What the header lines of a part have said so far. */
  datatype PartHead = PartHead(name: Text, fileName: Text, textName: Option<Text>)

  datatype ContentTypeError = NotVisibleAscii

  // ----- parameters of one header value

  /** `key=value` of one `;`-separated parameter, added to those before it. */
  function AddParameter(params: map<Text, Text>, piece: Text): map<Text, Text> {
    var part := Trim(piece);
    match Find(part, EQUAL)
    case None => params
    case Some(eq) => params[Trim(part[..eq]) := Unquote(Trim(part[eq + 1..]))]
  }

  function AddParameters(params: map<Text, Text>, pieces: seq<Text>): map<Text, Text>
    decreases |pieces|
  {
    if pieces == [] then params else AddParameters(AddParameter(params, pieces[0]), pieces[1..])
  }

  function HeaderChild(value: Text): map<Text, Text> {
    AddParameters(map[], Pieces(value, SEMI))
  }

  method GetHeaderChild(value: Text) returns (headers: map<Text, Text>)
    ensures headers == HeaderChild(value)
  {
    hide Pieces, AddParameter;
    headers := map[];
    var pieces := Pieces(value, SEMI);
    assert pieces[0..] == pieces;
    for i := 0 to |pieces|
      invariant AddParameters(headers, pieces[i..]) == HeaderChild(value)
    {
      assert pieces[i..][1..] == pieces[i + 1..];
      headers := AddParameter(headers, pieces[i]);
    }
  }

  function Lookup(m: map<Text, Text>, key: Text, default: Text): Text {
    if key in m then m[key] else default
  }

  // ----- header lines

  function DispositionValue(head: PartHead, value: Text): PartHead {
    if Contains(value, FILENAME_EQ) then
      var headers := HeaderChild(value);
      head.(name := Lookup(headers, NAME, head.name), fileName := Lookup(headers, FILENAME, head.fileName))
    else if Contains(value, NAME_EQ) && NAME in HeaderChild(value) then
      head.(textName := Some(HeaderChild(value)[NAME]))
    else head
  }

  function HeaderLine(head: PartHead, line: Text): PartHead {
    if |line| >= 19 && EqIgnoreCase(line[..19], DISPOSITION) then
      var fields := Pieces(line, COLON_SPACE);
      if |fields| > 1 then DispositionValue(head, fields[1]) else head
    else head
  }

  function HeaderLines(head: PartHead, lines: seq<Text>): PartHead
    decreases |lines|
  {
    if lines == [] then head else HeaderLines(HeaderLine(head, lines[0]), lines[1..])
  }

  const NO_HEAD: PartHead := PartHead([], [], None)

  method ReadHeader(header: Text) returns (head: PartHead)
    ensures head == HeaderLines(NO_HEAD, Pieces(header, CRLF))
  {
    hide Pieces, HeaderLine;
    head := NO_HEAD;
    var lines := Pieces(header, CRLF);
    assert lines[0..] == lines;
    for i := 0 to |lines|
      invariant HeaderLines(head, lines[i..]) == HeaderLines(NO_HEAD, lines)
    {
      assert lines[i..][1..] == lines[i + 1..];
      if lines[i] == [] {
        EmptyLine(head);
        continue;
      }
      head := ReadLine(head, lines[i]);
    }
  }

  lemma EmptyLine(head: PartHead)
    ensures HeaderLine(head, []) == head
  {
  }

  /** One line: `content-disposition` in any case; other headers only fill the part's header map. */
  method ReadLine(head: PartHead, line: Text) returns (next: PartHead)
    ensures next == HeaderLine(head, line)
  {
    hide Pieces, HeaderChild;
    next := head;
    if |line| >= 19 && EqIgnoreCase(line[..19], DISPOSITION) {
      var fields := Pieces(line, COLON_SPACE);
      if |fields| > 1 {
        var value := fields[1];
        if Contains(value, FILENAME_EQ) {
          var headers := GetHeaderChild(value);
          next := next.(name := Lookup(headers, NAME, next.name));
          next := next.(fileName := Lookup(headers, FILENAME, next.fileName));
        } else if Contains(value, NAME_EQ) {
          var headers := GetHeaderChild(value);
          if NAME in headers {
            next := next.(textName := Some(headers[NAME]));
          }
        }
      }
    }
  }

  // ----- one part

  predicate IsLineEnd(b: Byte) {
    b == LF || b == CR
  }

  function TrimLineEnds(body: seq<Byte>): seq<Byte> {
    if body != [] && IsLineEnd(body[|body| - 1]) then TrimLineEnds(body[..|body| - 1]) else body
  }

  method TrimBody(body: seq<Byte>) returns (trimmed: seq<Byte>)
    ensures trimmed == TrimLineEnds(body)
  {
    var bodyEnd := |body|;
    assert body[..bodyEnd] == body;
    while bodyEnd > 0 && (body[bodyEnd - 1] == LF || body[bodyEnd - 1] == CR)
      invariant 0 <= bodyEnd <= |body|
      invariant TrimLineEnds(body[..bodyEnd]) == TrimLineEnds(body)
    {
      assert body[..bodyEnd][..bodyEnd - 1] == body[..bodyEnd - 1];
      bodyEnd := bodyEnd - 1;
    }
    trimmed := body[..bodyEnd];
  }

  function ItemOf(head: PartHead, body: seq<Byte>): Item {
    if head.fileName != [] then FileItem(FilePart(head.name, head.fileName, TrimLineEnds(body)))
    else if head.textName.Some? then TextItem(head.textName.value, TrimLineEnds(body))
    else NoItem
  }

  function ParsePart(part: seq<Byte>): Item {
    match Find(part, HEADER_END)
    case None => NoItem
    case Some(p) =>
      if !ValidUtf8(part[..p]) then NoItem
      else ItemOf(HeaderLines(NO_HEAD, Pieces(part[..p], CRLF)), part[p + 4..])
  }

  method ReadPart(part: seq<Byte>) returns (item: Item)
    ensures item == ParsePart(part)
  {
    hide Pieces, HeaderLines, TrimLineEnds, ValidUtf8;
    var splitPos := Find(part, HEADER_END);
    if splitPos.None? {
      return NoItem;
    }
    var header, body := part[..splitPos.value], part[splitPos.value + 4..];
    if !ValidUtf8(header) {
      return NoItem;
    }
    var head := ReadHeader(header);
    var trimmed := TrimBody(body);
    if head.fileName != [] {
      return FileItem(FilePart(head.name, head.fileName, trimmed));
    } else if head.textName.Some? {
      return TextItem(head.textName.value, trimmed);
    }
    return NoItem;
  }

  // ----- the form

  function AddItem(form: Form, item: Item): Form {
    match item
    case TextItem(name, value) => form.(textFields := form.textFields + [(name, value)])
    case FileItem(part) => form.(parts := form.parts + [part])
    case NoItem => form
  }

  function AddParts(form: Form, parts: seq<seq<Byte>>): Form
    decreases |parts|
  {
    if parts == [] then form else AddParts(AddItem(form, ParsePart(parts[0])), parts[1..])
  }

  const EMPTY_FORM: Form := Form([], [])

  function Delimiter(boundary: Text): seq<Byte> {
    DASHES + boundary
  }

  function ParseBody(boundary: Text, body: seq<Byte>): Form {
    AddParts(EMPTY_FORM, Split.Parts(body, Delimiter(boundary)))
  }

  /** `HeaderValue::to_str`: visible ASCII and tabs. */
  predicate VisibleAscii(s: seq<Byte>) {
    forall k :: 0 <= k < |s| ==> 32 <= s[k] < 127 || s[k] == TAB
  }

  /** The same by the bytes that may stand in it. */
  ghost predicate PlainText(s: seq<Byte>) {
    forall k :: 0 <= k < |s| ==> s[k] == 9 || 32 <= s[k] <= 126
  }

  lemma VisibleIsPlain(s: seq<Byte>)
    ensures VisibleAscii(s) <==> PlainText(s)
  {
  }

  /** The boundary parameter of a multipart content type, if it has one. */
  function BoundaryOf(contentType: Text): Option<Text> {
    var fields := Pieces(contentType, BOUNDARY_EQ);
    if Contains(contentType, FORM_DATA) && |fields| > 1 then Some(fields[1]) else None
  }

  method GetMultiPart(contentType: Option<Text>, body: seq<Byte>)
    returns (r: Result<Option<Form>, ContentTypeError>)
    ensures r == match contentType {
                   case None => Ok(None)
                   case Some(ct) =>
                     if !PlainText(ct) then Err(NotVisibleAscii)
                     else match BoundaryOf(ct) {
                       case None => Ok(None)
                       case Some(boundary) => Ok(Some(ParseBody(boundary, body)))
                     }
                 }
  {
    hide Pieces, ParsePart, Split.Parts, VisibleAscii, PlainText;
    if contentType.None? {
      return Ok(None);
    }
    VisibleIsPlain(contentType.value);
    if !VisibleAscii(contentType.value) {
      return Err(NotVisibleAscii);
    }
    if !Contains(contentType.value, FORM_DATA) {
      return Ok(None);
    }
    var fields := Pieces(contentType.value, BOUNDARY_EQ);
    if |fields| <= 1 {
      return Ok(None);
    }
    var boundary := fields[1];
    var form := EMPTY_FORM;
    var parts := Split.SplitBytes(body, Delimiter(boundary));
    assert parts[0..] == parts;
    for i := 0 to |parts|
      invariant AddParts(form, parts[i..]) == ParseBody(boundary, body)
    {
      assert parts[i..][1..] == parts[i + 1..];
      var item := ReadPart(parts[i]);
      match item {
        case TextItem(name, value) => form := form.(textFields := form.textFields + [(name, value)]);
        case FileItem(part) => form := form.(parts := form.parts + [part]);
        case NoItem =>
      }
    }
    return Ok(Some(form));
  }
}
