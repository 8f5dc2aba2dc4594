/** What the header lines of a part and the content type of a body mean, however they are laid out. */
module HeaderMeaning {
  import opened Bytes
  import opened Search
  import opened HeaderText
  import opened Multipart
  import opened RoundTrip
  import opened MultipartArena
  import opened ArenaRoundTrip
  import opened Split

  // ----- bodies

  /** Trimming a body takes exactly the run of CR and LF bytes at its end. */
  lemma {:induction false} TrimLineEndsTakes(body: seq<Byte>, tail: seq<Byte>)
    requires forall k :: 0 <= k < |tail| ==> tail[k] == 13 || tail[k] == 10
    requires body == [] || (body[|body| - 1] != 13 && body[|body| - 1] != 10)
    ensures TrimLineEnds(body + tail) == body
    decreases |tail|
  {
    if tail == [] {
      assert body + tail == body;
    } else {
      var s := body + tail;
      TrimLineEndsTakes(body, tail[..|tail| - 1]);
      assert s[..|s| - 1] == body + tail[..|tail| - 1];
    }
  }

  // ----- parameters

  /**
   What stands between two semicolons of a header value: a word, or a key, an equals sign and a
   value, with any white space around both.
   */
  datatype Piece = Bare(text: Text)
                 | Given(front: seq<Text>, key: Text, mid: seq<Text>, next: seq<Text>, value: Text, back: seq<Text>)

  ghost predicate Readable(q: Piece) {
    match q
    case Bare(text) => 61 !in text
    case Given(front, key, mid, next, value, back) =>
      && AllWhite(front) && AllWhite(mid) && AllWhite(next) && AllWhite(back)
      && key != [] && 33 <= key[0] < 127 && 33 <= key[|key| - 1] < 127 && 61 !in key
      && value != [] && NoWhiteAtEnds(value)
  }

  function PieceText(q: Piece): Text {
    match q
    case Bare(text) => text
    case Given(front, key, mid, next, value, back) =>
      Flatten(front) + (key + Flatten(mid) + [61] + Flatten(next) + value) + Flatten(back)
  }

  function PieceTexts(qs: seq<Piece>): (texts: seq<Text>)
    ensures |texts| == |qs| && forall k :: 0 <= k < |qs| ==> texts[k] == PieceText(qs[k])
  {
    seq(|qs|, k requires 0 <= k < |qs| => PieceText(qs[k]))
  }

  /** What the pieces say, on top of what is known: the last value of a key counts. */
  function Meant(params: map<Text, Text>, qs: seq<Piece>): map<Text, Text> {
    if qs == [] then params
    else
      var before := Meant(params, qs[..|qs| - 1]);
      match qs[|qs| - 1]
      case Bare(_) => before
      case Given(_, key, _, _, value, _) => before[key := Unquote(value)]
  }

  /** Text that ends within no white-space character. */
  predicate EndsWhole(front: Text) {
    var k := |front|;
    && k > 0 && front[k - 1] != 0xC2 && !(0xE1 <= front[k - 1] <= 0xE3)
    && (k > 1 && 0xE1 <= front[k - 2] <= 0xE3 ==> front[k - 1] !in {0x80, 0x81, 0x9A})
  }

  lemma WholeEnds(front: Text)
    requires front != []
    requires var k := |front|;
             || front[k - 1] <= 61
             || (k >= 2 && WhiteSpace(front[k - 2..]))
             || (k >= 3 && WhiteSpace(front[k - 3..]))
    ensures EndsWhole(front)
  {
  }

  lemma EndStays(front: Text, value: Text)
    requires value != [] && SpaceAtEnd(value) == 0 && EndsWhole(front)
    ensures SpaceAtEnd(front + value) == 0
  {
  }

  lemma EndsWhite(front: Text, c: Text)
    requires WhiteSpace(c)
    ensures var s, k := front + c, |front + c|;
            k > 0 && (s[k - 1] <= 61 || (k >= 2 && WhiteSpace(s[k - 2..])) || (k >= 3 && WhiteSpace(s[k - 3..])))
  {
    assert (front + c)[|front|..] == c;
  }

  lemma {:induction false} LastOf(cs: seq<Text>)
    requires cs != []
    ensures Flatten(cs) == Flatten(cs[..|cs| - 1]) + cs[|cs| - 1]
  {
    FlattenAppend(cs[..|cs| - 1], [cs[|cs| - 1]]);
    assert cs == cs[..|cs| - 1] + [cs[|cs| - 1]];
    assert [cs[|cs| - 1]][1..] == [];
  }

  /** Behind an equals sign, or white space, no byte of a value becomes white space. */
  lemma ValueEnds(before: Text, next: seq<Text>, value: Text)
    requires AllWhite(next) && value != [] && SpaceAtEnd(value) == 0
    ensures SpaceAtEnd(before + [61] + Flatten(next) + value) == 0
  {
    hide WhiteSpace, SpaceAtEnd, Flatten;
    var front := before + [61] + Flatten(next);
    if next == [] {
      assert front == before + [61] by { NothingFlat(); }
    } else {
      var last := next[|next| - 1];
      LastOf(next);
      Assoc(before + [61], Flatten(next[..|next| - 1]), last);
      EndsWhite(before + [61] + Flatten(next[..|next| - 1]), last);
    }
    WholeEnds(front);
    EndStays(front, value);
  }

  lemma NothingFlat()
    ensures Flatten([]) == []
  {
  }

  lemma SolidEnds(s: Text)
    ensures NoWhiteAtEnds(s) <==> SpaceAtStart(s) == 0 && SpaceAtEnd(s) == 0
  {
    hide WhiteSpace, SpaceAtStart, SpaceAtEnd;
    if NoWhiteAtEnds(s) {
      NoWhiteToTake(s);
    }
    if SpaceAtStart(s) == 0 && SpaceAtEnd(s) == 0 {
      forall c | WhiteSpace(c) ensures !(c <= s) && !(|c| <= |s| && s[|s| - |c|..] == c) {
        if c <= s {
          assert s == c + s[|c|..];
          WhiteAtStart(c, s[|c|..]);
          assert false;
        }
        if |c| <= |s| && s[|s| - |c|..] == c {
          assert s == s[..|s| - |c|] + c;
          WhiteAtStart(c, s[..|s| - |c|]);
          assert false;
        }
      }
    }
  }

  lemma KeyEnds(key: Text, rest: Text)
    requires key != [] && 33 <= key[0] < 127
    ensures SpaceAtStart(key + rest) == 0
    ensures 33 <= key[|key| - 1] < 127 ==> SpaceAtEnd(key) == 0
  {
  }

  lemma WhiteHasNoEquals(c: Text)
    requires WhiteSpace(c)
    ensures 61 !in c && 59 !in c
  {
  }

  lemma {:induction false} WhiteHasNoMarks(cs: seq<Text>)
    requires AllWhite(cs)
    ensures 61 !in Flatten(cs) && 59 !in Flatten(cs)
  {
    hide WhiteSpace;
    if cs != [] {
      WhiteHasNoEquals(cs[0]);
      WhiteHasNoMarks(cs[1..]);
    }
  }

  /** The two sides of the equals sign, trimmed. */
  lemma SidesTrimmed(key: Text, mid: seq<Text>, next: seq<Text>, value: Text)
    requires AllWhite(mid) && AllWhite(next) && NoWhiteAtEnds(key) && NoWhiteAtEnds(value)
    ensures Trim(key + Flatten(mid)) == key && Trim(Flatten(next) + value) == value
  {
    hide Trim, WhiteSpace, NoWhiteAtEnds, Flatten;
    TrimTakes([], key, mid);
    TrimTakes(next, value, []);
    NothingFlat();
    assert [] + key + Flatten(mid) == key + Flatten(mid);
    assert Flatten(next) + value + [] == Flatten(next) + value;
  }

  /** A parameter in any layout adds its value, unquoted, under its key; a word adds nothing. */
  lemma PieceAdds(params: map<Text, Text>, q: Piece)
    requires Readable(q)
    ensures AddParameter(params, PieceText(q))
         == match q case Bare(_) => params case Given(_, key, _, _, value, _) => params[key := Unquote(value)]
  {
    hide Trim, Unquote, Find, WhiteSpace, NoWhiteAtEnds, Flatten;
    match q {
      case Bare(text) => WordAdds(params, text);
      case Given(front, key, mid, next, value, back) =>
        var core := key + Flatten(mid) + [61] + Flatten(next) + value;
        GivenTrimmed(q, core);
        WhiteHasNoMarks(mid);
        var at := |key + Flatten(mid)|;
        assert forall j :: 0 <= j < at ==> core[j] == (key + Flatten(mid))[j];
        FindByte(core, 61, at);
        assert core[..at] == key + Flatten(mid) && core[at + 1..] == Flatten(next) + value;
        KeyEnds(key, []);
        assert key + [] == key;
        SolidEnds(key);
        SidesTrimmed(key, mid, next, value);
    }
  }

  lemma GivenTrimmed(q: Piece, core: Text)
    requires Readable(q) && q.Given? && core == q.key + Flatten(q.mid) + [61] + Flatten(q.next) + q.value
    ensures Trim(PieceText(q)) == core
  {
    hide Trim, WhiteSpace, NoWhiteAtEnds, Flatten;
    NoWhiteToTake(q.value);
    ValueEnds(q.key + Flatten(q.mid), q.next, q.value);
    KeyEnds(q.key, Flatten(q.mid) + [61] + Flatten(q.next) + q.value);
    assert core == q.key + (Flatten(q.mid) + [61] + Flatten(q.next) + q.value);
    SolidEnds(core);
    TrimTakes(q.front, core, q.back);
  }

  lemma WordAdds(params: map<Text, Text>, text: Text)
    requires 61 !in text
    ensures AddParameter(params, text) == params
  {
    hide Find;
    AbsentByte(Trim(text), EQUAL, 61);
    FindOccurs(Trim(text), EQUAL);
  }

  lemma {:induction false} PiecesAdd(params: map<Text, Text>, qs: seq<Piece>)
    requires forall k :: 0 <= k < |qs| ==> Readable(qs[k])
    ensures AddParameters(params, PieceTexts(qs)) == Meant(params, qs)
    decreases |qs|
  {
    hide AddParameter, Readable, PieceText;
    if qs != [] {
      var before, last := qs[..|qs| - 1], qs[|qs| - 1];
      PiecesAdd(params, before);
      assert PieceTexts(qs) == PieceTexts(before) + [PieceText(last)];
      AddLast(params, PieceTexts(before), PieceText(last));
      PieceAdds(Meant(params, before), last);
    }
  }

  lemma {:induction false} AddLast(params: map<Text, Text>, pieces: seq<Text>, last: Text)
    ensures AddParameters(params, pieces + [last]) == AddParameter(AddParameters(params, pieces), last)
    decreases |pieces|
  {
    hide AddParameter;
    if pieces == [] {
      assert [last][1..] == [];
    } else {
      assert (pieces + [last])[1..] == pieces[1..] + [last];
      AddLast(AddParameter(params, pieces[0]), pieces[1..], last);
    }
  }

  /** Joined by a byte that none of them holds, texts are what cutting at that byte gives. */
  lemma CutAtByte(texts: seq<Text>, x: Byte)
    requires texts != [] && forall k :: 0 <= k < |texts| ==> x !in texts[k]
    ensures Pieces(Join(texts, [x]), [x]) == texts
  {
    hide Find, Pieces, Join;
    forall k | 0 <= k < |texts| - 1 ensures Find(texts[k] + [x], [x]) == Some(|texts[k]|) {
      FindByte(texts[k] + [x], x, |texts[k]|);
    }
    AbsentByte(texts[|texts| - 1], [x], x);
    PiecesUnique(texts, [x]);
  }

  /** The parameters of a header value, in any number, order and layout. */
  lemma ValueMeans(qs: seq<Piece>)
    requires qs != [] && forall k :: 0 <= k < |qs| ==> Readable(qs[k]) && 59 !in PieceText(qs[k])
    ensures HeaderChild(Join(PieceTexts(qs), [59])) == Meant(map[], qs)
  {
    hide Pieces, Join, AddParameters, Meant, PieceText, Readable;
    CutAtByte(PieceTexts(qs), 59);
    PiecesAdd(map[], qs);
  }

  // ----- the same for the zero-copy parser

  /** The key is the one asked for, in any case, with no space behind it. */
  predicate Asks(q: Piece, key: Text) {
    q.Given? && q.mid == [] && Spells(key, q.key)
  }

  /** The value of the first parameter that has the key; spaces in front of it are not trimmed. */
  function FirstMeant(qs: seq<Piece>, key: Text): Option<Text> {
    if qs == [] then None
    else if Asks(qs[0], key) then Some(Unquote(Flatten(qs[0].next) + qs[0].value))
    else FirstMeant(qs[1..], key)
  }

  lemma TrimHoldsNoMore(s: Text, x: Byte)
    requires x !in s
    ensures x !in Trim(s)
  {
    hide TrimBounds;
  }

  lemma {:induction false} WhiteHasNoLetter(mid: seq<Text>)
    requires AllWhite(mid) && mid != []
    ensures Flatten(mid) != [] && !(65 <= Flatten(mid)[0] <= 122)
  {
    assert WhiteSpace(mid[0]);
  }

  /** Where the first equals sign of a parameter is, its key ends, in the layout that is asked for. */
  lemma GivenAsked(q: Piece, key: Text, core: Text)
    requires Readable(q) && q.Given? && Word(key)
    requires core == q.key + Flatten(q.mid) + [61] + Flatten(q.next) + q.value
    ensures HasKey(core, key) <==> Asks(q, key)
    ensures Asks(q, key) ==> core[|key| + 1..] == Flatten(q.next) + q.value
  {
    hide WhiteSpace, NoWhiteAtEnds, Flatten, EqIgnoreCase, Spells;
    var left := q.key + Flatten(q.mid);
    WhiteHasNoMarks(q.mid);
    assert forall j :: 0 <= j < |left| ==> core[j] == left[j] != 61;
    assert core[|left|] == 61 && core[..|left|] == left;
    assert core[|left| + 1..] == Flatten(q.next) + q.value;
    if |key| < |left| {
      assert core[|key|] == left[|key|];
    }
    if |key| > |left| && |key| <= |core| {
      SpellsIs(key, core[..|key|]);
      NotALetter(key, core[..|key|], |left|);
    }
    SpellsIs(key, left);
    SameLength(key, left);
    SameLength(key, q.key);
    if q.mid == [] {
      NothingFlat();
      assert left == q.key;
    } else {
      WhiteHasNoLetter(q.mid);
      assert left[|q.key|] == Flatten(q.mid)[0];
      NotALetter(key, left, |q.key|);
    }
  }

  lemma NotALetter(key: Text, text: Text, at: nat)
    requires Word(key) && at < |text| && !(65 <= text[at] <= 122)
    ensures !Spells(key, text)
  {
  }

  lemma SameLength(key: Text, text: Text)
    ensures Spells(key, text) ==> |text| == |key|
  {
  }

  lemma PieceAsked(q: Piece, key: Text)
    requires Readable(q) && Word(key)
    ensures HasKey(Trim(PieceText(q)), key) <==> Asks(q, key)
    ensures Asks(q, key) ==> Trim(PieceText(q))[|key| + 1..] == Flatten(q.next) + q.value
  {
    hide Trim, WhiteSpace, NoWhiteAtEnds, Flatten, Asks, EqIgnoreCase;
    match q {
      case Bare(text) =>
        TrimHoldsNoMore(text, 61);
        AsksGiven(q, key);
      case Given(_, _, _, _, _, _) =>
        var core := q.key + Flatten(q.mid) + [61] + Flatten(q.next) + q.value;
        GivenTrimmed(q, core);
        GivenAsked(q, key, core);
    }
  }

  lemma AsksGiven(q: Piece, key: Text)
    ensures Asks(q, key) ==> q.Given?
  {
  }

  lemma {:induction false} PiecesAsked(qs: seq<Piece>, key: Text)
    requires Word(key) && forall k :: 0 <= k < |qs| ==> Readable(qs[k])
    ensures Extract(PieceTexts(qs), key) == FirstMeant(qs, key)
    decreases |qs|
  {
    hide Trim, Readable, PieceText, Asks, Unquote, HasKey, Flatten, Word;
    if qs != [] {
      PieceAsked(qs[0], key);
      PiecesAsked(qs[1..], key);
      assert PieceTexts(qs)[1..] == PieceTexts(qs[1..]);
      AsksGiven(qs[0], key);
    }
  }

  /** What the zero-copy parser finds in a header value, for parameters in any layout. */
  lemma ValueAnswers(qs: seq<Piece>, key: Text)
    requires Word(key) && qs != []
    requires forall k :: 0 <= k < |qs| ==> Readable(qs[k]) && 59 !in PieceText(qs[k])
    ensures Extract(Pieces(Join(PieceTexts(qs), [59]), [59]), key) == FirstMeant(qs, key)
  {
    hide Pieces, Join, Extract, FirstMeant, PieceText, Readable, Word;
    CutAtByte(PieceTexts(qs), 59);
    PiecesAsked(qs, key);
  }

  // ----- lines

  /** Text in front of the next colon and space, or all of it. */
  ghost predicate UpTo(value: Text, rest: Text) {
    !Occurs(value + (if rest == [] then [] else [58]), [58, 32]) && (rest == [] || [58, 32] <= rest)
  }

  /** `filename=`. */
  const FILE_MARK: Text := [102, 105, 108, 101, 110, 97, 109, 101, 61]

  /** `name=`. */
  const NAME_MARK: Text := [110, 97, 109, 101, 61]

  lemma Marks()
    ensures FILENAME_EQ == FILE_MARK && NAME_EQ == NAME_MARK
    ensures NAME == NAME_MARK[..4] && FILENAME == FILE_MARK[..8]
  {
  }

  /** The piece behind the first colon and space of a line, whatever follows it. */
  lemma SecondPiece(first: Text, value: Text, rest: Text)
    requires 58 !in first && UpTo(value, rest)
    ensures var ps := Pieces(first + [58, 32] + (value + rest), [58, 32]); |ps| > 1 && ps[1] == value
  {
    hide Find, Pieces;
    ColonAfter(first, []);
    assert first + COLON_SPACE + [] == first + [58, 32];
    PiecesStep(first, [58, 32], value + rest);
    if rest == [] {
      assert value + rest == value == value + [];
      NoPieces(value, [58, 32]);
    } else {
      ValueThenColon(value);
      PiecesStep(value, [58, 32], rest[2..]);
      assert rest == [58, 32] + rest[2..];
      Assoc(value, [58, 32], rest[2..]);
    }
  }

  lemma ValueThenColon(value: Text)
    requires !Occurs(value + [58], [58, 32])
    ensures Find(value + [58, 32], [58, 32]) == Some(|value|)
  {
    var s, d: Text := value + [58, 32], [58, 32];
    assert s[|value|..|value| + 2] == d;
    assert s == value + [58] + [32];
    forall j | 0 <= j < |value| ensures !OccursAt(s, d, j) {
      OccursInPrefix(value + [58], [32], d, j);
    }
    FindIs(s, d, |value|);
  }

  /**
   A disposition line, in any spelling: with `filename=` in its value it may set name and file name,
   with only `name=` the name of a text; what is not given stays as it was.
   */
  lemma DispositionMeans(head: PartHead, key: Text, more: Text, value: Text, rest: Text)
    requires Spells(DISPOSITION_KEY, key) && 58 !in more && UpTo(value, rest)
    ensures var params, next := HeaderChild(value), HeaderLine(head, key + more + [58, 32] + (value + rest));
            var name, file := NAME_MARK[..4], FILE_MARK[..8];
            if Occurs(value, FILE_MARK) then
              && next.name == (if name in params then params[name] else head.name)
              && next.fileName == (if file in params then params[file] else head.fileName)
              && next.textName == head.textName
            else if Occurs(value, NAME_MARK) && name in params then
              next == head.(textName := Some(params[name]))
            else next == head
  {
    hide Pieces, HeaderChild, Spells, Find, Occurs, EqIgnoreCase, UpTo;
    var line := key + more + [58, 32] + (value + rest);
    Marks();
    KeyIs(key);
    SecondPiece(key + more, value, rest);
    assert line[..19] == key;
    FindOccurs(value, FILENAME_EQ);
    FindOccurs(value, NAME_EQ);
  }

  /**
   The same line for the zero-copy parser: each parameter that is given replaces what was known, one
   that is not leaves it; the header is kept and the content type is as before.
   */
  lemma ArenaDispositionMeans(head: Head<Text>, key: Text, value: Text)
    requires Spells(DISPOSITION_KEY, key)
    ensures var name := Extract(Pieces(value, [59]), NAME_MARK[..4]);
            var file := Extract(Pieces(value, [59]), FILE_MARK[..8]);
            ArenaLine(head, key + [58, 32] + value)
            == Head(if name.Some? then name else head.name, if file.Some? then file else head.fileName,
                    head.contentType, head.headers + [(key, value)])
  {
    hide Pieces, Extract, Find, Trim, Spells, EqIgnoreCase;
    var line := key + [58, 32] + value;
    Marks();
    KeyIs(key);
    ColonAfter(key, value);
    NotBlank(line);
    assert line[..19] == key && line[21..] == value;
  }

  /** A disposition line without a value says nothing. */
  lemma EmptyDispositionKeeps(head: PartHead, line: Text)
    requires !Occurs(line, [58, 32])
    ensures HeaderLine(head, line) == head
  {
    hide EqIgnoreCase;
    NoPieces(line, COLON_SPACE);
  }

  // ----- parts

  /** Without an empty line, or with a header that is no text, a part adds nothing to the form. */
  lemma NoPartWithoutHeader(part: seq<Byte>)
    requires !Occurs(part, [13, 10, 13, 10])
          || exists header, body :: Heads(part, header, body) && !ValidUtf8(header)
    ensures ParsePart(part) == NoItem
  {
    hide ValidUtf8, HeaderLines, Pieces;
    FindOccurs(part, HEADER_END);
    if header, body :| Heads(part, header, body) && !ValidUtf8(header) {
      HeadsIs(part, header, body);
    }
  }

  /**
   With a header that is text, what its lines say decides: a file name that is not empty makes a
   file, otherwise the name of a text makes a text; the body is taken without the line ends behind it.
   */
  lemma PartMeans(part: seq<Byte>, header: seq<Byte>, body: seq<Byte>, tail: seq<Byte>)
    requires Heads(part, header, body + tail) && ValidUtf8(header)
    requires forall k :: 0 <= k < |tail| ==> tail[k] == 13 || tail[k] == 10
    requires body == [] || (body[|body| - 1] != 13 && body[|body| - 1] != 10)
    ensures var head := HeaderLines(NO_HEAD, Pieces(header, [13, 10]));
            ParsePart(part) == if |head.fileName| > 0 then FileItem(FilePart(head.name, head.fileName, body))
                               else match head.textName
                                    case Some(name) => TextItem(name, body)
                                    case None => NoItem
  {
    hide ValidUtf8, HeaderLines, Pieces, Find, TrimLineEnds, Heads;
    HeadsIs(part, header, body + tail);
    TrimLineEndsTakes(body, tail);
  }

  /** The part is a header, its first empty line, and a body. */
  ghost predicate Heads(part: seq<Byte>, header: seq<Byte>, body: seq<Byte>) {
    && part == header + [13, 10, 13, 10] + body
    && forall j :: 0 <= j < |header| ==> !OccursAt(part, [13, 10, 13, 10], j)
  }

  lemma HeadsIs(part: seq<Byte>, header: seq<Byte>, body: seq<Byte>)
    requires Heads(part, header, body)
    ensures Find(part, HEADER_END) == Some(|header|) && part[..|header|] == header && part[|header| + 4..] == body
    ensures HeaderBody(part) == (header, body)
  {
    hide FindFrom;
    assert part[|header|..|header| + 4] == HEADER_END;
    FindIs(part, HEADER_END, |header|);
  }

  // ----- the zero-copy form is an error

  /** The part's header is not text: what precedes its first empty line, or all of it without one. */
  ghost predicate NotText(part: seq<Byte>) {
    && part != []
    && (|| (!Occurs(part, [13, 10, 13, 10]) && !ValidUtf8(part))
        || exists header, body :: Heads(part, header, body) && !ValidUtf8(header))
  }

  lemma ArenaPartFailsIff(part: seq<Byte>)
    ensures ParseArenaPart(part) == Err(BadUtf8) <==> NotText(part)
    ensures ParseArenaPart(part).Err? <==> NotText(part)
  {
    hide ValidUtf8, HeaderBody, ArenaLines, Pieces, ArenaItemOf, Heads, Occurs;
    if part != [] {
      if Occurs(part, [13, 10, 13, 10]) {
        HeaderBodyIs(part);
        HeadsWhen(part, HeaderBody(part).0, HeaderBody(part).1);
        forall header, body | Heads(part, header, body) ensures HeaderBody(part) == (header, body) {
          HeadsIs(part, header, body);
        }
      } else {
        HeaderBodyIs(part);
        if header, body :| Heads(part, header, body) {
          HeadsOccurs(part, header, body);
          assert false;
        }
      }
    }
  }

  lemma HeadsWhen(part: seq<Byte>, header: seq<Byte>, body: seq<Byte>)
    requires part == header + [13, 10, 13, 10] + body
    requires forall j :: 0 <= j < |header| ==> !OccursAt(part, [13, 10, 13, 10], j)
    ensures Heads(part, header, body)
  {
  }

  lemma HeadsOccurs(part: seq<Byte>, header: seq<Byte>, body: seq<Byte>)
    requires Heads(part, header, body)
    ensures Occurs(part, [13, 10, 13, 10])
  {
    assert OccursAt(part, [13, 10, 13, 10], |header|);
  }

  lemma {:induction false} ArenaFailsFrom(form: ArenaForm<Text>, parts: seq<seq<Byte>>)
    ensures AddArenaParts(form, parts).Err? <==> exists k :: 0 <= k < |parts| && NotText(parts[k])
    decreases |parts|
  {
    hide ParseArenaPart, NotText, AddArenaItem;
    if parts != [] {
      ArenaPartFailsIff(parts[0]);
      match ParseArenaPart(parts[0]) {
        case Err(_) =>
        case Ok(item) =>
          ArenaFailsFrom(AddArenaItem(form, item), parts[1..]);
          assert forall k :: 0 < k < |parts| ==> parts[k] == parts[1..][k - 1];
      }
    }
  }

  /** The zero-copy parse fails exactly when the header of some part is not text. */
  lemma ArenaFailsIff(boundary: Text, body: seq<Byte>)
    ensures ParseArenaBody(boundary, body).Err?
       <==> exists k :: 0 <= k < |ArenaParts(body, [45, 45] + boundary)|
                        && NotText(ArenaParts(body, [45, 45] + boundary)[k])
  {
    hide NotText, AddArenaParts, ArenaParts;
    assert Delimiter(boundary) == [45, 45] + boundary;
    ArenaFailsFrom(EmptyForm(), ArenaParts(body, [45, 45] + boundary));
  }

  // ----- content types

  /** `multipart/form-data`. */
  const FORM_TYPE: Text :=
    [109, 117, 108, 116, 105, 112, 97, 114, 116, 47, 102, 111, 114, 109, 45, 100, 97, 116, 97]

  /** `boundary=`. */
  const BOUNDARY_MARK: Text := [98, 111, 117, 110, 100, 97, 114, 121, 61]

  /** The mark stands behind `pre`, and nowhere before. */
  ghost predicate FirstMark(pre: Text) {
    forall j :: 0 <= j < |pre| ==> !OccursAt(pre + BOUNDARY_MARK, BOUNDARY_MARK, j)
  }

  lemma MarkIsFound(pre: Text)
    requires FirstMark(pre)
    ensures Find(pre + BOUNDARY_MARK, BOUNDARY_MARK) == Some(|pre|)
  {
    assert (pre + BOUNDARY_MARK)[|pre|..] == BOUNDARY_MARK;
    FindIs(pre + BOUNDARY_MARK, BOUNDARY_MARK, |pre|);
  }

  lemma TypeBytes()
    ensures FORM_DATA == FORM_TYPE && BOUNDARY_EQ == BOUNDARY_MARK
  {
  }

  /** The boundary is what stands between the first mark and the next one, or the end. */
  lemma BoundaryIs(pre: Text, boundary: Text, rest: Text)
    requires FirstMark(pre)
    requires if rest == [] then !Occurs(boundary, BOUNDARY_MARK)
             else FirstMark(boundary) && BOUNDARY_MARK <= rest
    ensures var contentType := pre + BOUNDARY_MARK + (boundary + rest);
            BoundaryOf(contentType) == if Occurs(contentType, FORM_TYPE) then Some(boundary) else None
  {
    hide Find, Pieces, Occurs;
    var d := BOUNDARY_MARK;
    TypeBytes();
    FindOccurs(pre + d + (boundary + rest), FORM_DATA);
    MarkIsFound(pre);
    PiecesStep(pre, d, boundary + rest);
    if rest == [] {
      assert boundary + rest == boundary;
      NoPieces(boundary, d);
    } else {
      MarkIsFound(boundary);
      assert rest == d + rest[|d|..];
      PiecesStep(boundary, d, rest[|d|..]);
      Assoc(boundary, d, rest[|d|..]);
    }
  }

  /** Without the mark there is no boundary. */
  lemma MarkMissing(contentType: Text)
    requires !Occurs(contentType, BOUNDARY_MARK)
    ensures BoundaryOf(contentType) == None
  {
    hide Pieces;
    TypeBytes();
    NoPieces(contentType, BOUNDARY_MARK);
  }
}
