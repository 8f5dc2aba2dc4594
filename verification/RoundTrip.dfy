/** What the standard parser makes of a printed body. */
module RoundTrip {
  import opened Bytes
  import opened Search
  import opened HeaderText
  import opened Multipart
  import opened MultipartPrinter
  import Split

  /** A name or file name that quoting, and splitting at semicolons and line ends, leave alone. */
  ghost predicate SimpleName(s: Text) {
    && CR !in s && LF !in s && SEMICOLON !in s
    && NoQuoteAtEnds(s)
    && ValidUtf8(s)
  }

  /** `content-disposition`. */
  const DISPOSITION_KEY: Text :=
    [99, 111, 110, 116, 101, 110, 116, 45, 100, 105, 115, 112, 111, 115, 105, 116, 105, 111, 110]

  /** The line begins with the key of a disposition, in any case. */
  predicate Dispositional(line: Text) {
    |line| >= 19 && Spells(DISPOSITION_KEY, line[..19])
  }

  /** Any other line of a header. */
  ghost predicate OtherLine(line: Text) {
    line != [] && CR !in line && ValidUtf8(line) && !Dispositional(line)
  }

  ghost predicate OtherLines(lines: seq<Text>) {
    forall k :: 0 <= k < |lines| ==> OtherLine(lines[k])
  }

  ghost predicate SimplePart(p: Part) {
    && SimpleName(p.name)
    && (p.fileName.Some? ==> SimpleName(p.fileName.value))
    && Spells(DISPOSITION_KEY, p.key)
    && OtherLines(p.before) && OtherLines(p.after)
  }

  /** The standard parser moreover splits header lines at every colon and space. */
  ghost predicate PlainName(s: Text) {
    SimpleName(s) && !Occurs(s, COLON_SPACE)
  }

  ghost predicate PlainPart(p: Part) {
    && SimplePart(p)
    && PlainName(p.name)
    && (p.fileName.Some? ==> PlainName(p.fileName.value))
  }

  /** The parts that the standard parser drops: it takes the one for a file, and the other for no file. */
  predicate Lost(p: Part) {
    match p.fileName
    case None => Contains(p.name, FILENAME_EQ)
    case Some(f) => f == []
  }

  /** A field whose names are plain: what the printer makes of it is a plain part. */
  ghost predicate PlainField(f: Field) {
    PlainName(f.name) && (f.fileName.Some? ==> PlainName(f.fileName.value))
  }

  ghost predicate SimpleField(f: Field) {
    SimpleName(f.name) && (f.fileName.Some? ==> SimpleName(f.fileName.value))
  }

  lemma SimpleFieldPrints(f: Field)
    requires SimpleField(f)
    ensures SimplePart(PartOf(f))
  {
    hide SimpleName;
  }

  lemma PlainFieldPrints(f: Field)
    requires PlainField(f)
    ensures PlainPart(PartOf(f))
  {
    hide SimpleName, SimplePart;
    SimpleFieldPrints(f);
  }

  lemma PlainIsSimple(p: Part)
    requires PlainPart(p)
    ensures SimplePart(p)
  {
  }

  /** The part as the parser is to report it. */
  function ItemFor(p: Part): Item {
    if Lost(p) then NoItem
    else
      match p.fileName
      case None => TextItem(p.name, TrimLineEnds(p.body))
      case Some(f) => FileItem(FilePart(p.name, f, TrimLineEnds(p.body)))
  }

  // ----- one parameter: ` key="text"`

  predicate Word(s: Text) {
    s != [] && forall k :: 0 <= k < |s| ==> 97 <= s[k] <= 122
  }

  lemma TrimNone(s: Text)
    requires SpaceAtStart(s) == 0 && SpaceAtEnd(s) == 0
    ensures Trim(s) == s
  {
  }

  lemma TrimOneSpace(s: Text)
    requires SpaceAtStart(s) == 0 && SpaceAtEnd(s) == 0
    ensures Trim([SPACE] + s) == s
  {
    var t := [SPACE] + s;
    assert t[1..] == s;
    assert LeadingSpace(t) == 1 + LeadingSpace(s) == 1;
    assert t[1..|t|] == s;
  }

  lemma TrimWord(s: Text)
    requires Word(s)
    ensures Trim(s) == s
  {
  }

  lemma TrimQuoted(s: Text)
    ensures Trim(Quoted(s)) == Quoted(s)
  {
  }

  function Param(key: Text, text: Text): Text {
    [SPACE] + (key + [EQUALS] + Quoted(text))
  }

  lemma TrimParam(key: Text, text: Text)
    requires Word(key)
    ensures Trim(Param(key, text)) == key + [EQUALS] + Quoted(text)
  {
    var s := key + [EQUALS] + Quoted(text);
    assert s[0] == key[0] && s[|s| - 1] == DOUBLE_QUOTE;
    TrimOneSpace(s);
  }

  lemma ParamParses(params: map<Text, Text>, key: Text, text: Text)
    requires Word(key) && NoQuoteAtEnds(text)
    ensures AddParameter(params, Param(key, text)) == params[key := text]
  {
    hide Trim, Find, Unquote;
    var s := key + [EQUALS] + Quoted(text);
    TrimParam(key, text);
    FindByte(s, EQUALS, |key|);
    assert s[..|key|] == key && s[|key| + 1..] == Quoted(text);
    TrimWord(key);
    TrimQuoted(text);
    UnquoteQuoted(text);
  }

  lemma FormDataParses(params: map<Text, Text>)
    ensures AddParameter(params, FORM_DATA_VALUE) == params
  {
    TrimNone(FORM_DATA_VALUE);
    AbsentByte(FORM_DATA_VALUE, EQUAL, EQUALS);
    FindOccurs(FORM_DATA_VALUE, EQUAL);
  }

  // ----- the header value

  /** What follows the name parameter. */
  function FileParam(p: Part): Text {
    match p.fileName case None => [] case Some(f) => SEMI + Param(FILENAME, f)
  }

  lemma ValueLaidOut(p: Part)
    ensures ValueOf(p) == FORM_DATA_VALUE + SEMI + (Param(NAME, p.name) + FileParam(p))
  {
    assert NAME_PARAM == [SPACE] + (NAME + [EQUALS]);
    assert FILENAME_PARAM == [SPACE] + (FILENAME + [EQUALS]);
    assert NAME_PARAM + Quoted(p.name) == Param(NAME, p.name);
    match p.fileName {
      case None =>
      case Some(f) => assert FILENAME_PARAM + Quoted(f) == Param(FILENAME, f);
    }
  }

  lemma ParamHolds(key: Text, text: Text, x: Byte)
    requires Word(key) && x !in text && x < 97 && x != SPACE && x != EQUALS && x != DOUBLE_QUOTE
    ensures x !in Param(key, text)
  {
  }

  lemma CutAtSemi(c: Text, rest: Text)
    requires SEMICOLON !in c
    ensures Pieces(c + SEMI + rest, SEMI) == [c] + Pieces(rest, SEMI)
    ensures Pieces(c, SEMI) == [c]
  {
    hide Pieces, Find;
    FindByte(c + SEMI, SEMICOLON, |c|);
    PiecesStep(c, SEMI, rest);
    AbsentByte(c, SEMI, SEMICOLON);
    NoPieces(c, SEMI);
  }

  lemma FileParamIs(p: Part)
    ensures FileParam(p) == match p.fileName case None => [] case Some(f) => SEMI + Param(FILENAME, f)
  {
  }

  /** The value splits at its semicolons into `form-data` and the parameters. */
  lemma ValuePieces(p: Part)
    requires SimplePart(p)
    ensures Pieces(ValueOf(p), SEMI)
         == [FORM_DATA_VALUE, Param(NAME, p.name)]
            + match p.fileName case None => [] case Some(f) => [Param(FILENAME, f)]
  {
    hide Pieces, Param, ValueOf, FileParam, NoQuoteAtEnds, ValidUtf8;
    ValueLaidOut(p);
    FileParamIs(p);
    var second := Param(NAME, p.name);
    CutAtSemi(FORM_DATA_VALUE, second + FileParam(p));
    ParamHolds(NAME, p.name, SEMICOLON);
    match p.fileName {
      case None =>
        assert second + [] == second;
        CutAtSemi(second, []);
      case Some(f) =>
        Assoc(second, SEMI, Param(FILENAME, f));
        CutAtSemi(second, Param(FILENAME, f));
        ParamHolds(FILENAME, f, SEMICOLON);
        CutAtSemi(Param(FILENAME, f), []);
    }
  }

  lemma ValueParses(p: Part)
    requires SimplePart(p)
    ensures HeaderChild(ValueOf(p))
         == match p.fileName case None => map[NAME := p.name] case Some(f) => map[NAME := p.name][FILENAME := f]
  {
    hide Pieces, AddParameter, SimpleName;
    ValuePieces(p);
    FormDataParses(map[]);
    SimpleEnds(p.name);
    ParamParses(map[], NAME, p.name);
    match p.fileName {
      case None =>
        AddTwo(FORM_DATA_VALUE, Param(NAME, p.name), []);
      case Some(f) =>
        SimpleEnds(f);
        ParamParses(map[NAME := p.name], FILENAME, f);
        AddTwo(FORM_DATA_VALUE, Param(NAME, p.name), [Param(FILENAME, f)]);
        assert [Param(FILENAME, f)][1..] == [];
    }
  }

  lemma SimpleEnds(s: Text)
    requires SimpleName(s)
    ensures NoQuoteAtEnds(s)
  {
  }

  lemma AddTwo(a: Text, b: Text, rest: seq<Text>)
    ensures AddParameters(map[], [a, b] + rest) == AddParameters(AddParameter(AddParameter(map[], a), b), rest)
  {
  }

  // ----- the header line

  const VALUE_HEAD: Text := Ascii("form-data; name=")

  lemma ValueQuoted(p: Part)
    ensures ValueOf(p) == VALUE_HEAD + [DOUBLE_QUOTE] + (p.name + [DOUBLE_QUOTE] + FileParam(p))
  {
    hide FileParam, ValueOf;
    ValueLaidOut(p);
    assert VALUE_HEAD == FORM_DATA_VALUE + SEMI + ([SPACE] + NAME + [EQUALS]);
    Requote(FORM_DATA_VALUE + SEMI, NAME, p.name, FileParam(p));
  }

  lemma Requote(a: Text, key: Text, text: Text, rest: Text)
    ensures a + (Param(key, text) + rest)
         == a + ([SPACE] + key + [EQUALS]) + [DOUBLE_QUOTE] + (text + [DOUBLE_QUOTE] + rest)
  {
  }

  lemma FileParamQuoted(f: Text)
    ensures SEMI + Param(FILENAME, f)
         == (SEMI + [SPACE] + FILENAME + [EQUALS]) + [DOUBLE_QUOTE] + (f + [DOUBLE_QUOTE] + [])
  {
  }

  /** A marker that holds no quote occurs in the value only if a name or a fixed piece holds it. */
  lemma ValueHolds(p: Part, d: Text)
    requires DOUBLE_QUOTE !in d && d != []
    requires !Occurs(VALUE_HEAD, d) && !Occurs(p.name, d)
    requires p.fileName.Some? ==> !Occurs(SEMI + [SPACE] + FILENAME + [EQUALS], d) && !Occurs(p.fileName.value, d)
    ensures !Occurs(ValueOf(p), d)
  {
    ValueQuoted(p);
    Barrier(VALUE_HEAD, DOUBLE_QUOTE, p.name + [DOUBLE_QUOTE] + FileParam(p), d);
    Barrier(p.name, DOUBLE_QUOTE, FileParam(p), d);
    assert !Occurs([], d);
    if p.fileName.Some? {
      var f := p.fileName.value;
      FileParamQuoted(f);
      Barrier(SEMI + [SPACE] + FILENAME + [EQUALS], DOUBLE_QUOTE, f + [DOUBLE_QUOTE] + [], d);
      Barrier(f, DOUBLE_QUOTE, [], d);
    }
  }

  lemma ValueHasNoColonSpace(p: Part)
    requires PlainPart(p)
    ensures !Occurs(ValueOf(p), COLON_SPACE)
  {
    AbsentByte(VALUE_HEAD, COLON_SPACE, COLON);
    AbsentByte(SEMI + [SPACE] + FILENAME + [EQUALS], COLON_SPACE, COLON);
    ValueHolds(p, COLON_SPACE);
  }

  lemma HeadHasNoFilename()
    ensures !Occurs(VALUE_HEAD, FILENAME_EQ)
  {
    forall j ensures !OccursAt(VALUE_HEAD, FILENAME_EQ, j) {
      FirstTwo(VALUE_HEAD, FILENAME_EQ, j);
    }
  }

  lemma FirstTwo(s: Text, d: Text, j: int)
    requires |d| >= 2
    ensures OccursAt(s, d, j) ==> s[j] == d[0] && s[j + 1] == d[1]
  {
  }

  lemma Rekey(a: Text, key: Text, text: Text, rest: Text)
    ensures a + (Param(key, text) + rest) == (a + [SPACE]) + (key + [EQUALS]) + (Quoted(text) + rest)
  {
    hide Quoted;
  }

  lemma ValueHasName(p: Part)
    ensures Contains(ValueOf(p), NAME_EQ)
  {
    hide Find, Occurs, FileParam, Quoted, ValueOf;
    var head, rest := FORM_DATA_VALUE + SEMI + [SPACE], Quoted(p.name) + FileParam(p);
    ValueLaidOut(p);
    assert NAME_EQ == NAME + [EQUALS];
    Rekey(FORM_DATA_VALUE + SEMI, NAME, p.name, FileParam(p));
    InMiddle(head, NAME_EQ, rest);
    FindOccurs(ValueOf(p), NAME_EQ);
  }

  /** A text part is taken for a file when its name holds `filename=`. */
  lemma ValueNamesFile(p: Part)
    requires PlainPart(p)
    ensures Contains(ValueOf(p), FILENAME_EQ) <==> p.fileName.Some? || Contains(p.name, FILENAME_EQ)
  {
    hide Find, PlainName, Occurs;
    FindOccurs(ValueOf(p), FILENAME_EQ);
    FindOccurs(p.name, FILENAME_EQ);
    match p.fileName {
      case None =>
        HeadHasNoFilename();
        if Occurs(p.name, FILENAME_EQ) {
          ValueQuoted(p);
          InsideToo(VALUE_HEAD + [DOUBLE_QUOTE], p.name, [DOUBLE_QUOTE] + FileParam(p), FILENAME_EQ);
          Assoc(VALUE_HEAD + [DOUBLE_QUOTE], p.name, [DOUBLE_QUOTE] + FileParam(p));
          Assoc(p.name, [DOUBLE_QUOTE], FileParam(p));
        } else {
          ValueHolds(p, FILENAME_EQ);
        }
      case Some(f) =>
        var head := FORM_DATA_VALUE + SEMI + Param(NAME, p.name) + SEMI + [SPACE];
        ValueLaidOut(p);
        assert ValueOf(p) == head + FILENAME_EQ + Quoted(f);
        InMiddle(head, FILENAME_EQ, Quoted(f));
    }
  }

  lemma InsideToo(a: Text, b: Text, c: Text, d: Text)
    requires Occurs(b, d)
    ensures Occurs(a + b + c, d)
  {
    var i :| OccursAt(b, d, i);
    assert (a + b + c)[|a| + i..|a| + i + |d|] == b[i..i + |d|];
    assert OccursAt(a + b + c, d, |a| + i);
  }

  lemma InMiddle(a: Text, d: Text, b: Text)
    ensures Occurs(a + d + b, d)
  {
    assert OccursAt(a + d + b, d, |a|);
  }

  function HeadFor(p: Part): PartHead {
    match p.fileName
    case None => if Lost(p) then PartHead(p.name, [], None) else PartHead([], [], Some(p.name))
    case Some(f) => PartHead(p.name, f, None)
  }

  lemma ValueGivesHead(p: Part)
    requires PlainPart(p)
    ensures DispositionValue(NO_HEAD, ValueOf(p)) == HeadFor(p)
  {
    hide Contains, HeaderChild, SimpleName;
    PlainIsSimple(p);
    ValueNamesFile(p);
    ValueHasName(p);
    ValueParses(p);
    assert |NAME| != |FILENAME|;
  }

  /** The key of a disposition, in whatever case, is taken for what it is, and holds no colon and no space. */
  lemma KeyIs(text: Text)
    ensures Spells(DISPOSITION_KEY, text) <==> EqIgnoreCase(text, DISPOSITION)
    ensures Spells(DISPOSITION_KEY, text)
        ==> |text| == 19 && forall k :: 0 <= k < 19 ==> 65 <= text[k] <= 122 || (k == 7 && text[k] == DASH)
  {
    assert DISPOSITION == DISPOSITION_KEY;
    SpellsIs(DISPOSITION_KEY, text);
  }

  lemma KeyColon(key: Text)
    requires Spells(DISPOSITION_KEY, key)
    ensures Find(key + COLON_SPACE, COLON_SPACE) == Some(19)
  {
    KeyIs(key);
    assert OccursAt(key + COLON_SPACE, COLON_SPACE, 19);
    forall j | 0 <= j < 19 ensures !OccursAt(key + COLON_SPACE, COLON_SPACE, j) {
      assert (key + COLON_SPACE)[j..j + 2][0] == key[j];
    }
    FindIs(key + COLON_SPACE, COLON_SPACE, 19);
  }

  lemma LinePieces(p: Part)
    requires PlainPart(p)
    ensures Pieces(LineOf(p), COLON_SPACE) == [p.key, ValueOf(p)]
  {
    hide Pieces, PlainName, Spells;
    KeyColon(p.key);
    KeyIs(p.key);
    PiecesStep(p.key, COLON_SPACE, ValueOf(p));
    ValueHasNoColonSpace(p);
    NoPieces(ValueOf(p), COLON_SPACE);
  }

  lemma LineGivesHead(p: Part)
    requires PlainPart(p)
    ensures HeaderLine(NO_HEAD, LineOf(p)) == HeadFor(p)
  {
    hide Pieces, ValueOf, DispositionValue, PlainName, Spells, EqIgnoreCase;
    LinePieces(p);
    ValueGivesHead(p);
    KeyIs(p.key);
    assert LineOf(p)[..19] == p.key;
  }

  /** Any other line leaves name, file name and text name as they are. */
  lemma OtherLineKeeps(head: PartHead, line: Text)
    requires !Dispositional(line)
    ensures HeaderLine(head, line) == head
  {
    hide Pieces, DispositionValue, Spells, EqIgnoreCase;
    if |line| >= 19 {
      KeyIs(line[..19]);
    }
  }

  lemma {:induction false} OtherLinesKeep(head: PartHead, lines: seq<Text>, rest: seq<Text>)
    requires OtherLines(lines)
    ensures HeaderLines(head, lines + rest) == HeaderLines(head, rest)
    decreases |lines|
  {
    hide HeaderLine, Dispositional, ValidUtf8;
    if lines == [] {
      assert lines + rest == rest;
    } else {
      assert OtherLine(lines[0]);
      OtherLineKeeps(head, lines[0]);
      assert (lines + rest)[1..] == lines[1..] + rest;
      OtherLinesKeep(head, lines[1..], rest);
    }
  }

  // ----- one part

  lemma LineHasNoBreaks(p: Part)
    requires SimplePart(p)
    ensures CR !in LineOf(p) && LF !in LineOf(p)
    ensures |LineOf(p)| > 0
  {
    hide OtherLines, Spells;
    ValueLaidOut(p);
    KeyIs(p.key);
    assert CR !in p.key + COLON_SPACE && LF !in p.key + COLON_SPACE;
    assert CR !in FORM_DATA_VALUE + SEMI && LF !in FORM_DATA_VALUE + SEMI;
    ParamHolds(NAME, p.name, CR);
    ParamHolds(NAME, p.name, LF);
    if p.fileName.Some? {
      ParamHolds(FILENAME, p.fileName.value, CR);
      ParamHolds(FILENAME, p.fileName.value, LF);
    }
  }

  /** Lines that a header can be made of. */
  ghost predicate LinesOfText(lines: seq<Text>) {
    lines != [] && forall k :: 0 <= k < |lines| ==> lines[k] != [] && CR !in lines[k]
  }

  lemma LinesAreText(p: Part)
    requires SimplePart(p)
    ensures LinesOfText(LinesOf(p))
  {
    hide LineOf, Dispositional, ValidUtf8, SimpleName, Spells;
    LineHasNoBreaks(p);
    forall k | 0 <= k < |LinesOf(p)| ensures LinesOf(p)[k] != [] && CR !in LinesOf(p)[k] {
      if k < |p.before| {
        assert OtherLine(p.before[k]);
      } else if k > |p.before| {
        assert OtherLine(p.after[k - |p.before| - 1]);
      }
    }
  }

  lemma HeaderEndBytes(c: seq<Byte>, j: nat)
    ensures OccursAt(c, HEADER_END, j) ==> c[j] == CR && c[j + 2] == CR
  {
  }

  /** A line, and the line end behind it, in front of text that does not begin with a line end. */
  lemma LineBeforeEnd(line: Text, t: seq<Byte>)
    requires CR !in line && t != [] && t[0] != CR && Find(t, HEADER_END).Some?
    ensures Find(line + CRLF + t, HEADER_END) == Some(|line| + 2 + Find(t, HEADER_END).value)
  {
    hide OccursAt, FindFrom;
    var s, from := line + CRLF + t, |line| + 2;
    assert s[from..] == t && s[from] == t[0] && s[from - 1] == LF;
    forall j | 0 <= j < from ensures !OccursAt(s, HEADER_END, j) {
      HeaderEndBytes(s, j);
      assert j < |line| ==> s[j] == line[j];
    }
    FindSkip(s, HEADER_END, 0, from);
    FindInSuffix(s, HEADER_END, from);
  }

  lemma LineThenEnd(line: Text, rest: seq<Byte>)
    requires CR !in line
    ensures Find(line + HEADER_END + rest, HEADER_END) == Some(|line|)
  {
    var s := line + HEADER_END + rest;
    assert s[|line|..|line| + 4] == HEADER_END;
    forall j | 0 <= j < |line| ensures !OccursAt(s, HEADER_END, j) {
      HeaderEndBytes(s, j);
    }
    FindIs(s, HEADER_END, |line|);
  }

  lemma JoinStarts(lines: seq<Text>, d: seq<Byte>)
    requires lines != [] && lines[0] != []
    ensures Join(lines, d) != [] && Join(lines, d)[0] == lines[0][0]
  {
  }

  lemma {:induction false} HeaderEndsBehind(lines: seq<Text>, rest: seq<Byte>)
    requires LinesOfText(lines)
    ensures Find(Join(lines, CRLF) + HEADER_END + rest, HEADER_END) == Some(|Join(lines, CRLF)|)
    decreases |lines|
  {
    hide Find;
    if |lines| == 1 {
      LineThenEnd(lines[0], rest);
    } else {
      var others := Join(lines[1..], CRLF);
      HeaderEndsBehind(lines[1..], rest);
      JoinStarts(lines[1..], CRLF);
      LineBeforeEnd(lines[0], others + HEADER_END + rest);
      assert lines[0] + CRLF + others + HEADER_END + rest == lines[0] + CRLF + (others + HEADER_END + rest);
    }
  }

  /** The header of a chunk ends at the first empty line. */
  lemma ChunkHeader(lines: seq<Text>, rest: seq<Byte>)
    requires LinesOfText(lines)
    ensures Find(CRLF + Join(lines, CRLF) + HEADER_END + rest, HEADER_END) == Some(2 + |Join(lines, CRLF)|)
  {
    hide Find, Join;
    var header := Join(lines, CRLF);
    HeaderEndsBehind(lines, rest);
    JoinStarts(lines, CRLF);
    LineBeforeEnd([], header + HEADER_END + rest);
    assert CRLF + header + HEADER_END + rest == [] + CRLF + (header + HEADER_END + rest);
  }

  lemma LineCut(line: Text)
    requires CR !in line
    ensures Find(line + CRLF, CRLF) == Some(|line|)
  {
    assert OccursAt(line + CRLF, CRLF, |line|);
    forall j | 0 <= j < |line| ensures !OccursAt(line + CRLF, CRLF, j) {
      FirstTwo(line + CRLF, CRLF, j);
    }
    FindIs(line + CRLF, CRLF, |line|);
  }

  /** Cut at its line ends, a header is its lines again. */
  lemma HeaderPieces(lines: seq<Text>)
    requires LinesOfText(lines)
    ensures Pieces(CRLF + Join(lines, CRLF), CRLF) == [[]] + lines
  {
    hide Pieces, Find, Occurs;
    var ps: seq<Text> := [[]] + lines;
    forall k | 0 <= k < |ps| - 1 ensures Find(ps[k] + CRLF, CRLF) == Some(|ps[k]|) {
      LineCut(ps[k]);
    }
    AbsentByte(ps[|ps| - 1], CRLF, CR);
    PiecesUnique(ps, CRLF);
    assert ps[1..] == lines;
    assert [] + CRLF + Join(lines, CRLF) == CRLF + Join(lines, CRLF);
  }

  lemma QuotedIsUtf8(s: Text)
    requires ValidUtf8(s)
    ensures ValidUtf8(Quoted(s))
  {
    hide ValidUtf8;
    AsciiIsUtf8([DOUBLE_QUOTE]);
    ValidUtf8Append([DOUBLE_QUOTE], s);
    ValidUtf8Append([DOUBLE_QUOTE] + s, [DOUBLE_QUOTE]);
  }

  lemma ParamIsUtf8(before: Text, text: Text, after: Text)
    requires forall k :: 0 <= k < |before| ==> before[k] < 0x80
    requires ValidUtf8(text) && ValidUtf8(after)
    ensures ValidUtf8(before + Quoted(text) + after)
  {
    hide ValidUtf8;
    AsciiIsUtf8(before);
    QuotedIsUtf8(text);
    ValidUtf8Append(before, Quoted(text));
    ValidUtf8Append(before + Quoted(text), after);
  }

  lemma FileTextIsUtf8(p: Part)
    requires SimplePart(p)
    ensures ValidUtf8(FileText(p))
  {
    hide ValidUtf8, Quoted, NoQuoteAtEnds;
    AsciiIsUtf8([]);
    if p.fileName.Some? {
      var f := p.fileName.value;
      ParamIsUtf8(SEMI + FILENAME_PARAM, f, []);
      assert SEMI + FILENAME_PARAM + Quoted(f) + [] == FileText(p);
    }
  }

  lemma LineIsUtf8(p: Part)
    requires SimplePart(p)
    ensures ValidUtf8(LineOf(p))
  {
    hide ValidUtf8, LineOf, Quoted, FileText, NoQuoteAtEnds, OtherLines, Spells;
    LineParts(p);
    FileTextIsUtf8(p);
    KeyIs(p.key);
    ParamIsUtf8(p.key + VALUE_TEXT, p.name, FileText(p));
  }

  const VALUE_TEXT: Text := COLON_SPACE + FORM_DATA_VALUE + SEMI + NAME_PARAM

  function FileText(p: Part): Text {
    match p.fileName case None => [] case Some(f) => SEMI + (FILENAME_PARAM + Quoted(f))
  }

  lemma LineParts(p: Part)
    ensures LineOf(p) == p.key + VALUE_TEXT + Quoted(p.name) + FileText(p)
  {
    hide Quoted;
    var named := NAME_PARAM + Quoted(p.name);
    assert LineOf(p) == p.key + COLON_SPACE + (FORM_DATA_VALUE + SEMI + named + FileText(p));
    Layers(p.key, COLON_SPACE, FORM_DATA_VALUE + SEMI, NAME_PARAM, Quoted(p.name), FileText(p));
    Assoc(COLON_SPACE, FORM_DATA_VALUE, SEMI);
  }

  lemma Layers(l: Text, a: Text, b: Text, c: Text, d: Text, e: Text)
    ensures l + a + (b + (c + d) + e) == l + (a + b + c) + d + e
  {
  }

  lemma {:induction false} JoinIsUtf8(lines: seq<Text>)
    requires lines != [] && forall k :: 0 <= k < |lines| ==> ValidUtf8(lines[k])
    ensures ValidUtf8(CRLF + Join(lines, CRLF))
    decreases |lines|
  {
    hide ValidUtf8;
    AsciiIsUtf8(CRLF);
    ValidUtf8Append(CRLF, lines[0]);
    if |lines| > 1 {
      JoinIsUtf8(lines[1..]);
      ValidUtf8Append(CRLF + lines[0], CRLF + Join(lines[1..], CRLF));
      Assoc(CRLF, lines[0], CRLF + Join(lines[1..], CRLF));
      Assoc(lines[0], CRLF, Join(lines[1..], CRLF));
    }
  }

  lemma HeaderIsUtf8(p: Part)
    requires SimplePart(p)
    ensures ValidUtf8(CRLF + Join(LinesOf(p), CRLF))
  {
    hide ValidUtf8, LineOf, Dispositional, SimpleName, Spells, Join;
    LineIsUtf8(p);
    forall k | 0 <= k < |LinesOf(p)| ensures ValidUtf8(LinesOf(p)[k]) {
      if k < |p.before| {
        assert OtherLine(p.before[k]);
      } else if k > |p.before| {
        assert OtherLine(p.after[k - |p.before| - 1]);
      }
    }
    JoinIsUtf8(LinesOf(p));
  }

  /** The line end that the printer adds to a body is trimmed with the body's own. */
  lemma TrimPrintedBody(body: seq<Byte>)
    ensures TrimLineEnds(body + CRLF) == TrimLineEnds(body)
  {
    assert (body + CRLF)[..|body| + 1] == body + [CR];
    assert (body + [CR])[..|body|] == body;
  }

  /** Header and content of a chunk, as both parsers cut it at its first empty line. */
  lemma ChunkCut(p: Part)
    requires SimplePart(p)
    ensures var c, header := Chunk(p), CRLF + Join(LinesOf(p), CRLF);
            && Find(c, HEADER_END) == Some(|header|)
            && c[..|header|] == header && c[|header| + 4..] == p.body + CRLF
            && ValidUtf8(header) && Pieces(header, CRLF) == [[]] + LinesOf(p)
  {
    hide Pieces, LinesOf, ValidUtf8, SimplePart, Find, Join;
    var header, rest := CRLF + Join(LinesOf(p), CRLF), p.body + CRLF;
    LinesAreText(p);
    ChunkHeader(LinesOf(p), rest);
    HeaderIsUtf8(p);
    HeaderPieces(LinesOf(p));
    assert Chunk(p) == header + HEADER_END + rest;
  }

  /** Whatever other header lines stand around its disposition, the part is read to its item. */
  lemma PartParses(p: Part)
    requires PlainPart(p)
    ensures ParsePart(Chunk(p)) == ItemFor(p)
  {
    hide Pieces, LinesOf, HeaderLines, ValidUtf8, TrimLineEnds, SimplePart, Find, Chunk, Join;
    PlainIsSimple(p);
    ChunkCut(p);
    LinesGiveHead(p);
    TrimPrintedBody(p.body);
  }

  lemma LinesGiveHead(p: Part)
    requires PlainPart(p)
    ensures HeaderLines(NO_HEAD, [[]] + LinesOf(p)) == HeadFor(p)
  {
    hide HeaderLine, LineOf, PlainName, SimpleName, HeaderLines, OtherLines, Spells;
    EmptyLine(NO_HEAD);
    NextLine(NO_HEAD, [], LinesOf(p));
    Assoc(p.before, [LineOf(p)], p.after);
    OtherLinesKeep(NO_HEAD, p.before, [LineOf(p)] + p.after);
    LineGivesHead(p);
    NextLine(NO_HEAD, LineOf(p), p.after);
    OtherLinesKeep(HeadFor(p), p.after, []);
    assert p.after + [] == p.after;
    NoMoreLines(HeadFor(p));
  }

  lemma NextLine(head: PartHead, line: Text, rest: seq<Text>)
    ensures HeaderLines(head, [line] + rest) == HeaderLines(HeaderLine(head, line), rest)
  {
  }

  lemma NoMoreLines(head: PartHead)
    ensures HeaderLines(head, []) == head
  {
  }

  // ----- the whole body

  /** The delimiter stands nowhere in what is printed for a part. */
  ghost predicate Separated(boundary: Text, parts: seq<Part>) {
    forall k :: 0 <= k < |parts| ==> !Occurs(Chunk(parts[k]), Delimiter(boundary))
  }

  /** All that follows the first delimiter of a printed body. */
  function AfterFirst(boundary: Text, parts: seq<Part>): seq<Byte> {
    if parts == [] then Split.CLOSING
    else Chunk(parts[0]) + Delimiter(boundary) + AfterFirst(boundary, parts[1..])
  }

  lemma {:induction false} PrintedIs(boundary: Text, parts: seq<Part>)
    ensures Printed(boundary, parts) == Delimiter(boundary) + AfterFirst(boundary, parts)
  {
    hide Chunk, Delimiter;
    if parts != [] {
      PrintedIs(boundary, parts[1..]);
      Regroup(Delimiter(boundary), Chunk(parts[0]), Delimiter(boundary), AfterFirst(boundary, parts[1..]));
    }
  }

  lemma Regroup(a: seq<Byte>, b: seq<Byte>, c: seq<Byte>, d: seq<Byte>)
    ensures a + b + (c + d) == a + (b + c + d)
  {
  }

  function Chunks(parts: seq<Part>): seq<seq<Byte>> {
    if parts == [] then [] else [Chunk(parts[0])] + Chunks(parts[1..])
  }

  /** A delimiter without line feed cannot begin in a chunk and end behind it. */
  lemma ChunkThenDelimiter(c: seq<Byte>, d: seq<Byte>)
    requires c != [] && c[|c| - 1] == LF && LF !in d && !Occurs(c, d)
    ensures Find(c + d, d) == Some(|c|)
  {
    assert OccursAt(c + d, d, |c|);
    forall j | 0 <= j < |c| ensures !OccursAt(c + d, d, j) {
      if j + |d| <= |c| {
        OccursInPrefix(c, d, d, j);
      } else if OccursAt(c + d, d, j) {
        HeldByte(c + d, d, j, |c| - 1);
      }
    }
    FindIs(c + d, d, |c|);
  }

  /** The leftmost cuts of a printed body fall exactly between its parts. */
  lemma {:induction false} BodyPieces(boundary: Text, parts: seq<Part>)
    requires LF !in boundary && Separated(boundary, parts)
    ensures Pieces(AfterFirst(boundary, parts), Delimiter(boundary))
         == Chunks(parts) + Pieces(Split.CLOSING, Delimiter(boundary))
    decreases |parts|
  {
    hide Pieces, Chunk, Find, Occurs;
    var d := Delimiter(boundary);
    if parts != [] {
      BodyPieces(boundary, parts[1..]);
      ChunkEnds(parts[0]);
      ChunkThenDelimiter(Chunk(parts[0]), d);
      PiecesStep(Chunk(parts[0]), d, AfterFirst(boundary, parts[1..]));
      Assoc([Chunk(parts[0])], Chunks(parts[1..]), Pieces(Split.CLOSING, d));
    } else {
      assert [] + Pieces(Split.CLOSING, d) == Pieces(Split.CLOSING, d);
    }
  }

  lemma ChunkEnds(p: Part)
    ensures Chunk(p) != [] && Chunk(p)[|Chunk(p)| - 1] == LF
  {
  }

  lemma {:induction false} KeptChunks(parts: seq<Part>, tail: seq<seq<Byte>>)
    requires tail != []
    ensures Split.Kept(Chunks(parts) + tail) == Chunks(parts) + Split.Kept(tail)
    decreases |parts|
  {
    hide Chunk, Split.Kept;
    if parts == [] {
      assert [] + tail == tail;
    } else {
      KeptChunks(parts[1..], tail);
      ChunkEnds(parts[0]);
      Split.KeptStep(Chunk(parts[0]), Chunks(parts[1..]) + tail);
      Assoc([Chunk(parts[0])], Chunks(parts[1..]), tail);
      Assoc([Chunk(parts[0])], Chunks(parts[1..]), Split.Kept(tail));
    }
  }

  /** The parts handed to the parser: the printed ones, and whatever the closing mark leaves. */
  lemma PartsOfPrinted(boundary: Text, parts: seq<Part>)
    requires LF !in boundary && Separated(boundary, parts)
    ensures Split.Parts(Printed(boundary, parts), Delimiter(boundary))
         == Chunks(parts) + Split.Kept(Pieces(Split.CLOSING, Delimiter(boundary)))
  {
    hide Pieces, Split.Kept, Chunk, AfterFirst, Chunks, Printed;
    var d := Delimiter(boundary);
    var rest := AfterFirst(boundary, parts);
    PrintedIs(boundary, parts);
    BodyPieces(boundary, parts);
    assert [] + d == d && d[0..|d|] == d;
    FindIs([] + d, d, 0);
    PiecesStep([], d, rest);
    assert [] + d + rest == d + rest;
    Split.KeptStep([], Pieces(rest, d));
    KeptChunks(parts, Pieces(Split.CLOSING, d));
  }

  // ----- what the closing mark leaves is no part

  lemma {:induction false} PieceIsShort(s: seq<Byte>, d: seq<Byte>, k: nat)
    requires d != [] && k < |Pieces(s, d)|
    ensures var piece := Pieces(s, d)[k]; |piece| <= |s| && (|piece| == |s| ==> piece == s)
    decreases |s|
  {
    match Find(s, d)
    case None =>
    case Some(i) =>
      if k > 0 {
        PieceIsShort(s[i + |d|..], d, k - 1);
      }
  }

  /** With a boundary that is not empty, the closing mark leaves nothing: the parts are the printed ones. */
  lemma PrintedPartsExactly(boundary: Text, parts: seq<Part>)
    requires boundary != [] && CR !in boundary && LF !in boundary && Separated(boundary, parts)
    ensures Split.Parts(Printed(boundary, parts), [45, 45] + boundary) == Chunks(parts)
  {
    hide Pieces, Split.Kept, Chunk, Chunks, Printed, Split.Parts, Separated;
    var d := Delimiter(boundary);
    PartsOfPrinted(boundary, parts);
    assert d == [45, 45] + boundary;
    forall j ensures !OccursAt([45, 45, 13, 10], d, j) {
      ThirdByte([45, 45, 13, 10], d, j);
    }
    NoPieces(Split.CLOSING, d);
    Split.KeptIs([Split.CLOSING]);
    assert [Split.CLOSING][..0] == [];
    assert Chunks(parts) + [] == Chunks(parts);
  }

  lemma ThirdByte(s: Text, d: Text, j: int)
    requires |d| >= 3
    ensures OccursAt(s, d, j) ==> s[j + 2] == d[2]
  {
  }

  lemma ShortPartIsNone(part: seq<Byte>)
    requires |part| <= 4 && part != HEADER_END
    ensures ParsePart(part) == NoItem
  {
  }

  lemma {:induction false} KeptIsPiece(ps: seq<seq<Byte>>, k: nat)
    requires ps != [] && k < |Split.Kept(ps)|
    ensures Split.Kept(ps)[k] in ps
  {
    if |ps| > 1 {
      var skip := if ps[0] == [] then 0 else 1;
      if k >= skip {
        KeptIsPiece(ps[1..], k - skip);
      }
    }
  }

  lemma {:induction false} NoItems(form: Form, rest: seq<seq<Byte>>)
    requires forall k :: 0 <= k < |rest| ==> ParsePart(rest[k]) == NoItem
    ensures AddParts(form, rest) == form
    decreases |rest|
  {
    hide ParsePart;
    if rest != [] {
      NoItems(form, rest[1..]);
    }
  }

  lemma ClosingIsNoPart(form: Form, d: seq<Byte>)
    requires d != []
    ensures AddParts(form, Split.Kept(Pieces(Split.CLOSING, d))) == form
  {
    hide Pieces, ParsePart, AddParts, Split.Kept;
    var ps := Pieces(Split.CLOSING, d);
    var rest := Split.Kept(ps);
    forall k | 0 <= k < |rest| ensures ParsePart(rest[k]) == NoItem {
      KeptIsPiece(ps, k);
      var j :| 0 <= j < |ps| && ps[j] == rest[k];
      PieceIsShort(Split.CLOSING, d, j);
      ShortPartIsNone(rest[k]);
    }
    NoItems(form, rest);
  }

  // ----- the round trip

  function ItemTexts(item: Item): seq<(Text, seq<Byte>)> {
    match item case TextItem(n, v) => [(n, v)] case _ => []
  }

  function ItemFiles(item: Item): seq<FilePart> {
    match item case FileItem(part) => [part] case _ => []
  }

  /** The text fields, and the file parts, that a list of parts stands for, in its order. */
  function TextsOf(parts: seq<Part>): seq<(Text, seq<Byte>)> {
    if parts == [] then []
    else ItemTexts(ItemFor(parts[0])) + TextsOf(parts[1..])
  }

  function FilesOf(parts: seq<Part>): seq<FilePart> {
    if parts == [] then []
    else ItemFiles(ItemFor(parts[0])) + FilesOf(parts[1..])
  }

  /** No part is missing exactly when no text name holds `filename=` and no file name is empty. */
  lemma {:induction false} AllPartsKeptIff(parts: seq<Part>)
    ensures |TextsOf(parts)| + |FilesOf(parts)| <= |parts|
    ensures |TextsOf(parts)| + |FilesOf(parts)| == |parts|
       <==> forall k :: 0 <= k < |parts| ==> !Lost(parts[k])
    decreases |parts|
  {
    hide TrimLineEnds, Lost;
    if parts != [] {
      AllPartsKeptIff(parts[1..]);
    }
  }

  lemma {:induction false} ChunksParse(form: Form, parts: seq<Part>, rest: seq<seq<Byte>>)
    requires forall k :: 0 <= k < |parts| ==> PlainPart(parts[k])
    ensures AddParts(form, Chunks(parts) + rest)
         == AddParts(Form(form.textFields + TextsOf(parts), form.parts + FilesOf(parts)), rest)
    decreases |parts|
  {
    hide ParsePart, Chunk, ItemFor, PlainPart;
    if parts == [] {
      assert Chunks(parts) + rest == rest;
      assert form.textFields + [] == form.textFields && form.parts + [] == form.parts;
    } else {
      var p := parts[0];
      PartParses(p);
      var next := AddItem(form, ItemFor(p));
      Assoc([Chunk(p)], Chunks(parts[1..]), rest);
      assert ([Chunk(p)] + (Chunks(parts[1..]) + rest))[1..] == Chunks(parts[1..]) + rest;
      ChunksParse(next, parts[1..], rest);
      AddItemFor(form, p, parts[1..]);
    }
  }

  lemma AddItemIs(form: Form, item: Item)
    ensures AddItem(form, item) == Form(form.textFields + ItemTexts(item), form.parts + ItemFiles(item))
  {
  }

  lemma AddItemFor(form: Form, p: Part, parts: seq<Part>)
    ensures var next := AddItem(form, ItemFor(p));
            && next.textFields + TextsOf(parts) == form.textFields + TextsOf([p] + parts)
            && next.parts + FilesOf(parts) == form.parts + FilesOf([p] + parts)
  {
    hide ItemFor, ItemTexts, ItemFiles, AddItem;
    var item := ItemFor(p);
    AddItemIs(form, item);
    assert ([p] + parts)[1..] == parts;
    Assoc(form.textFields, ItemTexts(item), TextsOf(parts));
    Assoc(form.parts, ItemFiles(item), FilesOf(parts));
  }

  /** Parsing a printed body gives back every name and file name, in order, and every trimmed body. */
  lemma PrintedBodyParses(boundary: Text, parts: seq<Part>)
    requires LF !in boundary && Separated(boundary, parts)
    requires forall k :: 0 <= k < |parts| ==> PlainPart(parts[k])
    ensures ParseBody(boundary, Printed(boundary, parts)) == Form(TextsOf(parts), FilesOf(parts))
  {
    hide Pieces, AddParts, Chunks, TextsOf, FilesOf, Printed, Split.Kept, Separated, PlainPart;
    var rest := Split.Kept(Pieces(Split.CLOSING, Delimiter(boundary)));
    PartsOfPrinted(boundary, parts);
    ChunksParse(EMPTY_FORM, parts, rest);
    assert [] + TextsOf(parts) == TextsOf(parts) && [] + FilesOf(parts) == FilesOf(parts);
    ClosingIsNoPart(Form(TextsOf(parts), FilesOf(parts)), Delimiter(boundary));
  }

  /** A printed body is its own exactly when it does not end in a line end. */
  lemma BodyKeptIff(body: seq<Byte>)
    ensures TrimLineEnds(body) == body <==> (body == [] || !IsLineEnd(body[|body| - 1]))
  {
    if body != [] && IsLineEnd(body[|body| - 1]) {
      TrimShrinks(body[..|body| - 1]);
    }
  }

  lemma {:induction false} TrimShrinks(body: seq<Byte>)
    ensures |TrimLineEnds(body)| <= |body|
  {
    if body != [] && IsLineEnd(body[|body| - 1]) {
      TrimShrinks(body[..|body| - 1]);
    }
  }

  // ----- the boundary parameter

  const TYPE_HEAD: Text := Ascii("multipart/form-data; ")

  function ContentTypeOf(boundary: Text): Text {
    TYPE_HEAD + BOUNDARY_EQ + boundary
  }

  lemma BoundaryFound(boundary: Text)
    requires PlainText(boundary) && !Occurs(boundary, BOUNDARY_EQ)
    ensures PlainText(ContentTypeOf(boundary))
    ensures BoundaryOf(ContentTypeOf(boundary)) == Some(boundary)
  {
    hide Pieces, Find, PlainText, ContentTypeOf;
    TypeIsVisible(boundary);
    TypeIsFormData(boundary);
    TypePieces(boundary);
  }

  lemma TypeIsVisible(boundary: Text)
    requires PlainText(boundary)
    ensures PlainText(ContentTypeOf(boundary))
  {
    var head := TYPE_HEAD + BOUNDARY_EQ;
    assert PlainText(head);
    assert ContentTypeOf(boundary) == head + boundary;
  }

  lemma TypeIsFormData(boundary: Text)
    ensures Contains(ContentTypeOf(boundary), FORM_DATA)
  {
  }

  lemma TypePieces(boundary: Text)
    requires !Occurs(boundary, BOUNDARY_EQ)
    ensures Pieces(ContentTypeOf(boundary), BOUNDARY_EQ) == [TYPE_HEAD, boundary]
  {
    hide Pieces, Find;
    var head := TYPE_HEAD + BOUNDARY_EQ;
    assert head[|TYPE_HEAD|..|TYPE_HEAD| + |BOUNDARY_EQ|] == BOUNDARY_EQ;
    assert forall j :: 0 <= j < |TYPE_HEAD| ==> head[j] == TYPE_HEAD[j] != BOUNDARY_EQ[0];
    forall j | 0 <= j < |TYPE_HEAD| ensures !OccursAt(head, BOUNDARY_EQ, j) {
      FirstTwo(head, BOUNDARY_EQ, j);
    }
    FindIs(head, BOUNDARY_EQ, |TYPE_HEAD|);
    PiecesStep(TYPE_HEAD, BOUNDARY_EQ, boundary);
    NoPieces(boundary, BOUNDARY_EQ);
  }

  /** A body that any sender lays out so, sent under the matching content type, and parsed. */
  method ParsePrinted(boundary: Text, ghost parts: seq<Part>, body: seq<Byte>)
    returns (r: Result<Option<Form>, ContentTypeError>)
    requires body == Printed(boundary, parts)
    requires PlainText(boundary) && !Occurs(boundary, BOUNDARY_EQ)
    requires Separated(boundary, parts)
    requires forall k :: 0 <= k < |parts| ==> PlainPart(parts[k])
    ensures r == Ok(Some(Form(TextsOf(parts), FilesOf(parts))))
  {
    hide ParseBody, Printed, TextsOf, FilesOf, BoundaryOf, Separated, PlainPart;
    BoundaryFound(boundary);
    PrintedBodyParses(boundary, parts);
    r := GetMultiPart(Some(ContentTypeOf(boundary)), body);
  }

  /** Print, send under the matching content type, and parse. */
  method PrintAndParse(boundary: Text, fields: seq<Field>) returns (r: Result<Option<Form>, ContentTypeError>)
    requires PlainText(boundary) && !Occurs(boundary, BOUNDARY_EQ)
    requires Separated(boundary, PartsOf(fields))
    requires forall k :: 0 <= k < |fields| ==> PlainField(fields[k])
    ensures r == Ok(Some(Form(TextsOf(PartsOf(fields)), FilesOf(PartsOf(fields)))))
  {
    hide ParseBody, Printed, TextsOf, FilesOf, BoundaryOf, Separated, PlainPart, PlainField;
    var buf := MakeMultipartBody(boundary, fields);
    forall k | 0 <= k < |fields| ensures PlainPart(PartsOf(fields)[k]) {
      PlainFieldPrints(fields[k]);
    }
    r := ParsePrinted(boundary, PartsOf(fields), buf);
  }

  // ----- when the delimiter stands nowhere in a part

  lemma LineBarrier(a: seq<Byte>, b: seq<Byte>, d: seq<Byte>)
    requires CR !in d && LF !in d && d != []
    ensures Occurs(a + CRLF + b, d) ==> Occurs(a, d) || Occurs(b, d)
  {
    assert a + CRLF + b == a + [CR] + ([] + [LF] + b);
    Barrier(a, CR, [] + [LF] + b, d);
    Barrier([], LF, b, d);
  }

  lemma DashesAbsent(boundary: Text, key: Text)
    requires Spells(DISPOSITION_KEY, key)
    ensures !Occurs(key + COLON_SPACE + VALUE_HEAD, Delimiter(boundary))
    ensures !Occurs(SEMI + [SPACE] + FILENAME + [EQUALS], Delimiter(boundary))
  {
    hide Spells;
    KeyIs(key);
    var d := Delimiter(boundary);
    assert d[0] == DASH && d[1] == DASH;
    var a, b := key + COLON_SPACE + VALUE_HEAD, SEMI + [SPACE] + FILENAME + [EQUALS];
    forall j ensures !OccursAt(a, d, j) && !OccursAt(b, d, j) {
      FirstTwo(a, d, j);
      FirstTwo(b, d, j);
    }
  }

  lemma {:induction false} JoinSeparates(lines: seq<Text>, d: seq<Byte>)
    requires lines != [] && CR !in d && LF !in d && d != []
    requires forall k :: 0 <= k < |lines| ==> !Occurs(lines[k], d)
    ensures !Occurs(Join(lines, CRLF), d)
    decreases |lines|
  {
    hide Occurs;
    if |lines| > 1 {
      JoinSeparates(lines[1..], d);
      LineBarrier(lines[0], Join(lines[1..], CRLF), d);
    }
  }

  /** With a boundary of visible characters but no quote, only the contents can hold the delimiter. */
  lemma ContentSeparates(boundary: Text, p: Part)
    requires CR !in boundary && LF !in boundary && DOUBLE_QUOTE !in boundary
    requires !Occurs(p.name, Delimiter(boundary)) && !Occurs(p.body, Delimiter(boundary))
    requires p.fileName.Some? ==> !Occurs(p.fileName.value, Delimiter(boundary))
    requires Spells(DISPOSITION_KEY, p.key)
    requires forall k :: 0 <= k < |p.before| ==> !Occurs(p.before[k], Delimiter(boundary))
    requires forall k :: 0 <= k < |p.after| ==> !Occurs(p.after[k], Delimiter(boundary))
    ensures !Occurs(Chunk(p), Delimiter(boundary))
  {
    hide Occurs, Chunk, LineOf, Quoted, Spells, Join;
    var d, header := Delimiter(boundary), Join(LinesOf(p), CRLF);
    NothingInNothing(d);
    LineSeparates(boundary, p);
    JoinSeparates(LinesOf(p), d);
    ChunkLines(p);
    LineBarrier(p.body, [], d);
    LineBarrier([], p.body + CRLF + [], d);
    LineBarrier(header, [] + CRLF + (p.body + CRLF + []), d);
    LineBarrier([], header + CRLF + ([] + CRLF + (p.body + CRLF + [])), d);
  }

  lemma NothingInNothing(d: seq<Byte>)
    requires d != []
    ensures !Occurs([], d)
  {
  }

  lemma ChunkLines(p: Part)
    ensures Chunk(p) == [] + CRLF + (Join(LinesOf(p), CRLF) + CRLF + ([] + CRLF + (p.body + CRLF + [])))
  {
    hide Join, LinesOf;
  }

  lemma LineSeparates(boundary: Text, p: Part)
    requires DOUBLE_QUOTE !in boundary && Spells(DISPOSITION_KEY, p.key)
    requires !Occurs(p.name, Delimiter(boundary))
    requires p.fileName.Some? ==> !Occurs(p.fileName.value, Delimiter(boundary))
    ensures !Occurs(LineOf(p), Delimiter(boundary))
  {
    hide Spells;
    var d := Delimiter(boundary);
    var head := p.key + COLON_SPACE + VALUE_HEAD;
    DashesAbsent(boundary, p.key);
    ValueQuoted(p);
    NothingInNothing(d);
    assert LineOf(p) == head + [DOUBLE_QUOTE] + (p.name + [DOUBLE_QUOTE] + FileParam(p));
    Barrier(head, DOUBLE_QUOTE, p.name + [DOUBLE_QUOTE] + FileParam(p), d);
    Barrier(p.name, DOUBLE_QUOTE, FileParam(p), d);
    if p.fileName.Some? {
      var f := p.fileName.value;
      FileParamQuoted(f);
      Barrier(SEMI + [SPACE] + FILENAME + [EQUALS], DOUBLE_QUOTE, f + [DOUBLE_QUOTE] + [], d);
      Barrier(f, DOUBLE_QUOTE, [], d);
    }
  }
}
