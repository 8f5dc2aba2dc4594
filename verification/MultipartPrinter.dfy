/** Printing a list of parts as a multipart body, and where its delimiters are. */
module MultipartPrinter {
  import opened Bytes
  import opened Search
  import opened HeaderText
  import opened Multipart
  import Split

  /** What the printer is given for a part. */
  datatype Field = Field(name: Text, fileName: Option<Text>, body: seq<Byte>)

  /**
   A part of a body: its disposition under a spelling of that key, the header lines before and after that,
   and its content.
   */
  datatype Part = Part(before: seq<Text>, key: Text, name: Text, fileName: Option<Text>, after: seq<Text>,
                       body: seq<Byte>)

  const PRINTED_DISPOSITION: Text := Ascii("Content-Disposition")
  const FORM_DATA_VALUE: Text := Ascii("form-data")
  const NAME_PARAM: Text := Ascii(" name=")
  const FILENAME_PARAM: Text := Ascii(" filename=")

  /** `form-data; name="..."`, and `; filename="..."` for a file. */
  function ValueOf(p: Part): Text {
    FORM_DATA_VALUE + SEMI + (NAME_PARAM + Quoted(p.name))
    + match p.fileName case None => [] case Some(f) => SEMI + (FILENAME_PARAM + Quoted(f))
  }

  function LineOf(p: Part): Text {
    p.key + COLON_SPACE + ValueOf(p)
  }

  function LinesOf(p: Part): (lines: seq<Text>)
    ensures lines != []
  {
    p.before + [LineOf(p)] + p.after
  }

  /** What stands between a part's delimiter and the next one. */
  function Chunk(p: Part): seq<Byte> {
    CRLF + Join(LinesOf(p), CRLF) + HEADER_END + (p.body + CRLF)
  }

  function Printed(boundary: Text, parts: seq<Part>): seq<Byte> {
    if parts == [] then Delimiter(boundary) + Split.CLOSING
    else Delimiter(boundary) + Chunk(parts[0]) + Printed(boundary, parts[1..])
  }

  /** A field is printed with no other header than its disposition. */
  function PartOf(field: Field): Part {
    Part([], PRINTED_DISPOSITION, field.name, field.fileName, [], field.body)
  }

  function PartsOf(fields: seq<Field>): (parts: seq<Part>)
    ensures |parts| == |fields|
    ensures forall k :: 0 <= k < |parts| ==> parts[k] == PartOf(fields[k])
  {
    seq(|fields|, k requires 0 <= k < |fields| => PartOf(fields[k]))
  }

  method MakeMultipartBody(boundary: Text, fields: seq<Field>) returns (buf: seq<Byte>)
    ensures buf == Printed(boundary, PartsOf(fields))
  {
    hide Chunk;
    buf := [];
    ghost var parts := PartsOf(fields);
    assert parts[0..] == parts;
    for i := 0 to |fields|
      invariant buf + Printed(boundary, parts[i..]) == Printed(boundary, parts)
    {
      assert parts[i..][0] == parts[i] && parts[i..][1..] == parts[i + 1..];
      ghost var before := buf;
      buf := buf + DASHES + boundary + CRLF;
      var line := PRINTED_DISPOSITION + COLON_SPACE + FORM_DATA_VALUE + SEMI + NAME_PARAM + Quoted(fields[i].name);
      if fields[i].fileName.Some? {
        line := line + SEMI + FILENAME_PARAM + Quoted(fields[i].fileName.value);
      }
      buf := buf + line + CRLF;
      buf := buf + CRLF;
      buf := buf + fields[i].body;
      buf := buf + CRLF;
      ChunkLaidOut(before, boundary, fields[i], line);
      Assoc(before, Delimiter(boundary) + Chunk(parts[i]), Printed(boundary, parts[i + 1..]));
    }
    buf := buf + (DASHES + boundary + DASHES + CRLF);
    assert DASHES + boundary + DASHES + CRLF == Delimiter(boundary) + Split.CLOSING;
  }

  lemma ChunkLaidOut(before: seq<Byte>, boundary: Text, f: Field, line: Text)
    requires line == PRINTED_DISPOSITION + COLON_SPACE + FORM_DATA_VALUE + SEMI + NAME_PARAM + Quoted(f.name)
      + match f.fileName case None => [] case Some(name) => SEMI + FILENAME_PARAM + Quoted(name)
    ensures before + DASHES + boundary + CRLF + line + CRLF + CRLF + f.body + CRLF
         == before + (Delimiter(boundary) + Chunk(PartOf(f)))
  {
    hide LineOf, Quoted;
    LineLaidOut(PartOf(f), line);
    assert LinesOf(PartOf(f)) == [line];
    assert CRLF + CRLF == HEADER_END;
    InOrder(before, DASHES, boundary, line, f.body);
  }

  lemma LineLaidOut(p: Part, line: Text)
    requires line == p.key + COLON_SPACE + FORM_DATA_VALUE + SEMI + NAME_PARAM + Quoted(p.name)
      + match p.fileName case None => [] case Some(f) => SEMI + FILENAME_PARAM + Quoted(f)
    ensures line == LineOf(p)
  {
    hide Quoted;
  }

  lemma InOrder(before: Text, dashes: Text, boundary: Text, line: Text, body: Text)
    ensures before + dashes + boundary + CRLF + line + CRLF + CRLF + body + CRLF
         == before + ((dashes + boundary) + (CRLF + line + (CRLF + CRLF) + (body + CRLF)))
  {
  }
}
