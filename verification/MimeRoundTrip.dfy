/** What the builder of the outbound worker prints, the mail parser reads back. */
module MimeRoundTrip {
  import opened Wrappers
  import opened Text
  import opened MimeText
  import opened MimeHeaders
  import opened MediaTypes
  import opened Multipart
  import opened MimeTypes
  import opened MimePrinter
  import opened MimeParser
  import Base64

  // ---- The libraries on both sides ----

  const WORD_MARK: Bytes := "=?"

  /** The standard library reads media types, and leaves alone what is no encoded word. */
  ghost predicate Standard(lib: Library)
  {
    && lib.Shrinks()
    && (forall v :: lib.mediaType(v) == ParseMediaType(v))
    && (forall r, b :: lib.nextPart(r, b) == NextPart(r, b))
    && (forall s :: !Holds(s, WORD_MARK) ==> lib.words(s) == s)
  }

  /** The quoter escapes quotes, backslashes and control characters of the text, and nothing else. */
  ghost predicate EscapesAscii(quote: Quote, s: Bytes)
  {
    quote(s) == ['"'] + Escaped(s) + ['"']
  }

  predicate Ascii(s: Bytes)
  {
    forall i :: 0 <= i < |s| ==> s[i] as int < 128
  }

  /** %q does that to ASCII; it does so to other text too unless that holds characters that cannot be printed. */
  ghost predicate Quotes(quote: Quote)
  {
    forall s :: Ascii(s) ==> EscapesAscii(quote, s)
  }

  /** Both can be met: with no encoded words, and quoted-printable text that encodes nothing. */
  lemma StandardExists()
    ensures Standard(Library(ParseMediaType, NextPart, (s: Bytes) => s, (s: Bytes) => Some(s), s => None, s => None,
                             s => None))
    ensures Quotes((s: Bytes) => ['"'] + Escaped(s) + ['"'])
  {
  }

  /** An attachment whose labels make header lines. */
  ghost predicate PlainFile(f: FileData, quote: Quote)
  {
    EscapesAscii(quote, f.filename) && All(TypeOf(f), ValueByte)
  }

  /** The type of an attachment as it is read. */
  function ReadType(f: FileData): MediaType
  {
    ParseMediaType(Trim(TypeOf(f), Blank)).media
  }

  /** The attachment as a part of a parsed mail. Without a name it gets the one that its type gives. */
  function Expected(f: FileData, lib: Library): Part
  {
    Part(ReadType(f).name, lib.words(if f.filename == [] then ParamOf(ReadType(f), NAME) else ReadBack(f.filename)),
         [], false, f.data)
  }

  /** What an attachment is read as: a leaf, unless its type makes a multipart of it. */
  ghost function FileTreeOf(f: FileData, lib: Library): Option<Tree>
    requires lib.Shrinks()
  {
    if IsMultipart(ReadType(f)) then
      match TreesFrom(NewReader(f.data), ParamOf(ReadType(f), BOUNDARY), lib)
      case None => None
      case Some(children) => Some(Branch(children))
    else Some(Leaf(Expected(f, lib)))
  }

  /**
    The labels of an attachment survive: the type exactly when it is a plain name on its own in small letters, and a
    name without encoded words exactly when it holds no control characters.
   */
  lemma LabelsKeptIff(f: FileData, lib: Library)
    requires Standard(lib)
    ensures Expected(f, lib).contentType == TypeOf(f) <==> PlainName(TypeOf(f))
    ensures f.filename != [] && !Holds(ReadBack(f.filename), WORD_MARK) ==>
              (Expected(f, lib).filename == f.filename <==> Printable(f.filename))
  {
    var v := Trim(TypeOf(f), Blank);
    if PlainName(TypeOf(f)) {
      TypeUntrimmed(TypeOf(f));
      ParsePlain(TypeOf(f));
    }
    if ReadType(f).name == TypeOf(f) {
      ReadNameValid(v);
      ValidIsPlain(TypeOf(f));
    }
    ReadBackIff(f.filename);
  }

  /** A name that was read is nothing, or valid and in small letters. */
  lemma ReadNameValid(v: Bytes)
    ensures
      var name := ParseMediaType(v).media.name;
      name == [] || (ValidName(name) && Lower(name) == name)
  {
    match Cut(v, ';') {
      case None => NameFrom(v, []);
      case Some(halves) => NameFrom(halves.0, [';'] + halves.1);
    }
  }

  lemma NameFrom(base: Bytes, rest: Bytes)
    ensures
      var name := Trim(Lower(base), Space);
      Lower(name) == name && Parameters(name, rest, map[]).media.name in {[], name}
  {
    TrimmedLower(base);
    NameKept(Trim(Lower(base), Space), rest, map[]);
  }

  lemma {:induction false} NameKept(name: Bytes, s: Bytes, params: map<Bytes, Bytes>)
    ensures Parameters(name, s, params).media.name in {[], name}
    decreases |s|
  {
    var t := TrimLeft(s, Space);
    if t != [] && Parameter(t).Some? {
      var p := Parameter(t).value;
      NameKept(name, p.2, params[p.0 := p.1]);
    }
  }

  lemma TrimmedLower(s: Bytes)
    ensures Lower(Trim(Lower(s), Space)) == Trim(Lower(s), Space)
  {
    TrimLeftHolds(Lower(s), Space);
    TrimRightHolds(TrimLeft(Lower(s), Space), Space);
    var r := Trim(Lower(s), Space);
    forall i | 0 <= i < |r|
      ensures !('A' <= r[i] <= 'Z')
    {
      assert r[i] in Lower(s);
      var k :| 0 <= k < |s| && Lower(s)[k] == r[i];
      assert Lower(s)[k] == LowerByte(s[k]);
    }
    LowerFixed(r);
  }

  // ---- Constants as the parser sees them ----

  const MIXED: Bytes := "multipart/mixed"
  const ALTERNATIVE: Bytes := "multipart/alternative"
  const CHARSET: Bytes := "charset"
  const UTF8: Bytes := "UTF-8"

  lemma PlainIsPlain()
    ensures PlainName(PLAIN)
  {
    var a: Bytes := "text";
    var b: Bytes := "plain";
    LettersPlain(a, b);
    assert PLAIN == a + ['/'] + b;
  }

  lemma HtmlIsPlain()
    ensures PlainName(HTML)
  {
    var a: Bytes := "text";
    var b: Bytes := "html";
    LettersPlain(a, b);
    assert HTML == a + ['/'] + b;
  }

  lemma MixedIsPlain()
    ensures PlainName(MIXED) && MULTIPART <= MIXED
  {
    var a: Bytes := "multipart";
    var b: Bytes := "mixed";
    LettersPlain(a, b);
    assert MIXED == a + ['/'] + b;
    assert MULTIPART == a + ['/'];
  }

  lemma AlternativeIsPlain()
    ensures PlainName(ALTERNATIVE) && MULTIPART <= ALTERNATIVE
  {
    var a: Bytes := "multipart";
    var b: Bytes := "alternative";
    LettersPlain(a, b);
    assert ALTERNATIVE == a + ['/'] + b;
    assert MULTIPART == a + ['/'];
  }

  lemma Utf8Token()
    ensures Token(UTF8) && !Blank(UTF8[|UTF8| - 1])
  {
    assert UTF8 == ['U', 'T', 'F', '-', '8'];
    forall i | 0 <= i < 5
      ensures TokenByte(UTF8[i])
    {
      assert i == 0 || i == 1 || i == 2 || i == 3 || i == 4;
    }
  }

  lemma WithCharset(v: Bytes, name: Bytes)
    requires PlainName(name) && v == name + [';'] + ([' '] + CHARSET + ['='] + UTF8)
    ensures ParseMediaType(v) == Parsed(MediaType(name, map[CHARSET := UTF8]), true)
  {
    Utf8Token();
    TokenValue(UTF8);
    ParseWithParameter(name, CHARSET, UTF8, UTF8);
  }

  lemma TextType()
    ensures TEXT_TYPE == PLAIN + [';'] + ([' '] + CHARSET + ['='] + UTF8)
  {
  }

  lemma HtmlType()
    ensures HTML_TYPE == HTML + [';'] + ([' '] + CHARSET + ['='] + UTF8)
  {
  }

  // ---- What parts say about themselves ----

  predicate Untrimmed(v: Bytes)
  {
    v == [] || (!Blank(v[0]) && !Blank(v[|v| - 1]))
  }

  lemma NoType()
    ensures ParseMediaType([]) == Parsed(NOTHING, false)
  {
  }

  lemma KeysDiffer()
    ensures !EqualFold(CONTENT_TYPE, CONTENT_DISPOSITION) && !EqualFold(CONTENT_TYPE, CONTENT_ID)
    ensures !EqualFold(CONTENT_TYPE, CONTENT_TRANSFER_ENCODING) && !EqualFold(CONTENT_DISPOSITION, CONTENT_TYPE)
    ensures !EqualFold(CONTENT_DISPOSITION, CONTENT_ID) && !EqualFold(CONTENT_DISPOSITION, CONTENT_TRANSFER_ENCODING)
    ensures !EqualFold(CONTENT_TRANSFER_ENCODING, CONTENT_ID)
            && !EqualFold(CONTENT_TRANSFER_ENCODING, CONTENT_DISPOSITION)
    ensures !EqualFold(BASE64, QUOTED_PRINTABLE)
  {
  }

  lemma TextFields(contentType: Bytes, body: Bytes)
    requires Untrimmed(contentType)
    ensures
      var fields := TrimmedAll(TextPart(contentType, body).fields);
      && Get(fields, CONTENT_TYPE) == contentType && Get(fields, CONTENT_TRANSFER_ENCODING) == QUOTED_PRINTABLE
      && Get(fields, CONTENT_DISPOSITION) == [] && Get(fields, CONTENT_ID) == []
  {
    var f, g := Field(CONTENT_TYPE, contentType), Field(CONTENT_TRANSFER_ENCODING, QUOTED_PRINTABLE);
    var fields := TrimmedAll(TextPart(contentType, body).fields);
    assert Trimmed(g) == g;
    assert fields == [f] + ([g] + []);
    KeysDiffer();
    GetTwo(f, g, CONTENT_TYPE);
    GetTwo(f, g, CONTENT_TRANSFER_ENCODING);
    GetTwo(f, g, CONTENT_DISPOSITION);
    GetTwo(f, g, CONTENT_ID);
  }

  lemma GetTwo(f: Field, g: Field, name: Bytes)
    ensures Get([f] + ([g] + []), name) ==
            if EqualFold(f.key, name) then f.value else if EqualFold(g.key, name) then g.value else []
  {
    GetFirst(f, [g] + [], name);
    GetFirst(g, [], name);
  }

  lemma NothingEncoded(lib: Library)
    requires Standard(lib)
    ensures lib.words([]) == []
  {
    assert !Holds([], WORD_MARK);
  }

  lemma TextLabels(contentType: Bytes, name: Bytes, body: Bytes, lib: Library)
    requires Standard(lib) && PlainName(name) && contentType == name + [';'] + ([' '] + CHARSET + ['='] + UTF8)
    ensures LabelsOf(TrimmedAll(TextPart(contentType, body).fields), lib) ==
            Labels(MediaType(name, map[CHARSET := UTF8]), [], [], false, QUOTED_PRINTABLE)
  {
    WithCharset(contentType, name);
    TypeUntrimmed(name);
    TextFields(contentType, body);
    NoType();
    NothingEncoded(lib);
    assert lib.mediaType(contentType) == ParseMediaType(contentType);
    assert lib.mediaType([]) == ParseMediaType([]);
    assert CHARSET != NAME;
  }

  /** A text part is a leaf with the decoded body, or nothing when the body does not decode. */
  lemma TextTree(contentType: Bytes, name: Bytes, body: Bytes, lib: Library)
    requires Standard(lib) && PlainName(name) && contentType == name + [';'] + ([' '] + CHARSET + ['='] + UTF8)
    requires !(MULTIPART <= name)
    ensures TreeOf(RawPart(TrimmedAll(TextPart(contentType, body).fields), body), lib) ==
            match lib.quotedPrintable(body)
            case None => None
            case Some(data) => Some(Leaf(Part(name, [], [], false, data)))
  {
    TextLabels(contentType, name, body, lib);
    assert EqualFold(Trim(QUOTED_PRINTABLE, Space), QUOTED_PRINTABLE);
  }

  // ---- Attachments ----

  lemma AttachmentText(text: Bytes)
    ensures ATTACHMENT + text == ATTACHMENT_NAME + [';'] + ([' '] + FILENAME + ['='] + text)
  {
    assert ATTACHMENT == ATTACHMENT_NAME + [';'] + ([' '] + FILENAME + ['=']);
    Associates(ATTACHMENT_NAME + [';'], [' '] + FILENAME + ['='], text);
  }

  lemma DispositionOf(v: Bytes, filename: Bytes, text: Bytes)
    requires v == ATTACHMENT_NAME + [';'] + ([' '] + FILENAME + ['='] + text)
    requires Value(text) == Some((filename, [])) && text != [] && !Space(text[0])
    ensures ParseMediaType(v) == Parsed(MediaType(ATTACHMENT_NAME, map[FILENAME := filename]), true)
  {
    LettersWord(ATTACHMENT_NAME);
    ParseWithParameter(ATTACHMENT_NAME, FILENAME, text, filename);
  }

  const ATTACHMENT_NAME: Bytes := "attachment"

  lemma FileFields(contentType: Bytes, disposition: Bytes)
    requires Untrimmed(disposition)
    ensures
      var fields := TrimmedAll([Field(CONTENT_TYPE, contentType), Field(CONTENT_DISPOSITION, disposition),
                                Field(CONTENT_TRANSFER_ENCODING, BASE64)]);
      && Get(fields, CONTENT_TYPE) == Trim(contentType, Blank) && Get(fields, CONTENT_TRANSFER_ENCODING) == BASE64
      && Get(fields, CONTENT_DISPOSITION) == disposition && Get(fields, CONTENT_ID) == []
  {
    var f, g, h := Field(CONTENT_TYPE, contentType), Field(CONTENT_DISPOSITION, disposition),
        Field(CONTENT_TRANSFER_ENCODING, BASE64);
    var f' := Trimmed(f);
    assert Trimmed(h) == h;
    assert TrimmedAll([f, g, h]) == [f'] + ([g] + ([h] + []));
    KeysDiffer();
    GetThree(f', g, h, CONTENT_TYPE);
    GetThree(f', g, h, CONTENT_TRANSFER_ENCODING);
    GetThree(f', g, h, CONTENT_DISPOSITION);
    GetThree(f', g, h, CONTENT_ID);
  }

  lemma GetThree(f: Field, g: Field, h: Field, name: Bytes)
    ensures Get([f] + ([g] + ([h] + [])), name) ==
            if EqualFold(f.key, name) then f.value else if EqualFold(g.key, name) then g.value
            else if EqualFold(h.key, name) then h.value else []
  {
    GetFirst(f, [g] + ([h] + []), name);
    GetTwo(g, h, name);
  }

  lemma AttachmentStart()
    ensures ATTACHMENT != [] && !Blank(ATTACHMENT[0])
    ensures ATTACHMENT_NAME != INLINE
  {
    assert |ATTACHMENT_NAME| != |INLINE|;
  }

  lemma FileDisposition(f: FileData, quote: Quote, lib: Library)
    requires Standard(lib) && PlainFile(f, quote)
    ensures
      var v := ATTACHMENT + quote(f.filename);
      Untrimmed(v) && lib.mediaType(v).media == MediaType(ATTACHMENT_NAME, map[FILENAME := ReadBack(f.filename)])
  {
    var text := quote(f.filename);
    QuotedValue(f.filename);
    AttachmentText(text);
    AttachmentStart();
    DispositionOf(ATTACHMENT + text, ReadBack(f.filename), text);
    assert lib.mediaType(ATTACHMENT + text) == ParseMediaType(ATTACHMENT + text);
  }

  lemma FileLabels(f: FileData, quote: Quote, lib: Library)
    requires Standard(lib) && PlainFile(f, quote)
    ensures LabelsOf(TrimmedAll(FilePart(f, quote).fields), lib) ==
            Labels(ReadType(f), Expected(f, lib).filename, [], false, BASE64)
  {
    var v := Trim(TypeOf(f), Blank);
    FileDisposition(f, quote, lib);
    FileFields(TypeOf(f), ATTACHMENT + quote(f.filename));
    ReadBackLength(f.filename);
    AttachmentStart();
    assert lib.mediaType(v) == ParseMediaType(v);
  }

  lemma TypeUntrimmed(name: Bytes)
    requires PlainName(name)
    ensures Untrimmed(name) && name != []
  {
    PlainIsValid(name);
    ValidNameBytes(name);
  }

  // ---- Wrapped data ----

  lemma {:induction false} UnwrapPlain(s: Bytes, rest: Bytes)
    requires Base64.Plain(s)
    ensures WithoutLineEnds(s + rest) == s + WithoutLineEnds(rest)
  {
    if s == [] {
      assert s + rest == rest;
    } else {
      assert (s + rest)[1..] == s[1..] + rest;
      UnwrapPlain(s[1..], rest);
    }
  }

  lemma UnwrapLineEnd(rest: Bytes)
    ensures WithoutLineEnds(CRLF + rest) == WithoutLineEnds(rest)
  {
    assert (CRLF + rest)[2..] == rest;
  }

  /** Lines come out of their line ends, with or without the last of these. */
  lemma {:induction false} Unwrapped(lines: seq<Bytes>, tail: Bytes)
    requires forall i :: 0 <= i < |lines| ==> Base64.Plain(lines[i])
    ensures WithoutLineEnds(Terminated(lines) + tail) == Join(lines, []) + WithoutLineEnds(tail)
  {
    if lines == [] {
      assert Terminated(lines) + tail == tail;
      assert [] + WithoutLineEnds(tail) == WithoutLineEnds(tail);
    } else {
      var rest := Terminated(lines[1..]) + tail;
      Unwrapped(lines[1..], tail);
      assert Terminated(lines) + tail == lines[0] + (CRLF + rest);
      UnwrapPlain(lines[0], CRLF + rest);
      UnwrapLineEnd(rest);
      JoinFront(lines);
      Associates(lines[0], Join(lines[1..], []), WithoutLineEnds(tail));
    }
  }

  lemma JoinFront(lines: seq<Bytes>)
    requires lines != []
    ensures Join(lines, []) == lines[0] + Join(lines[1..], [])
  {
    if |lines| == 1 {
      assert lines[0] + [] == lines[0];
    } else {
      assert lines[0] + [] + Join(lines[1..], []) == lines[0] + Join(lines[1..], []);
    }
  }

  lemma {:induction false} ChunksPlain(e: Bytes)
    requires Base64.Plain(e)
    ensures forall i :: 0 <= i < |Chunks(e)| ==> Base64.Plain(Chunks(e)[i])
  {
    if |e| > LINE_LENGTH {
      ChunksPlain(e[LINE_LENGTH..]);
    }
  }

  /** The encoded lines of a file. */
  function Lines(f: FileData): seq<Bytes>
  {
    Chunks(Base64.Encode(f.data))
  }

  /** The lines with all but the last line end. */
  function Unterminated(lines: seq<Bytes>): Bytes
    requires lines != []
  {
    if |lines| == 1 then lines[0] else lines[0] + CRLF + Unterminated(lines[1..])
  }

  lemma {:induction false} LastLineEnd(lines: seq<Bytes>)
    requires lines != []
    ensures Terminated(lines) == Unterminated(lines) + CRLF
  {
    if |lines| == 1 {
      assert Terminated(lines[1..]) == [];
      assert lines[0] + CRLF + [] == lines[0] + CRLF;
    } else {
      LastLineEnd(lines[1..]);
      Associates(lines[0] + CRLF, Unterminated(lines[1..]), CRLF);
    }
  }

  lemma {:induction false} UnwrappedFront(lines: seq<Bytes>)
    requires lines != [] && forall i :: 0 <= i < |lines| ==> Base64.Plain(lines[i])
    ensures WithoutLineEnds(Unterminated(lines)) == Join(lines, [])
  {
    if |lines| == 1 {
      UnwrapPlain(lines[0], []);
      assert lines[0] + [] == lines[0];
    } else {
      var rest := Unterminated(lines[1..]);
      UnwrappedFront(lines[1..]);
      Associates(lines[0], CRLF, rest);
      UnwrapPlain(lines[0], CRLF + rest);
      UnwrapLineEnd(rest);
      JoinFront(lines);
    }
  }

  lemma LinesFit(f: FileData)
    ensures forall i :: 0 <= i < |Lines(f)| ==> Base64.Plain(Lines(f)[i])
    ensures Join(Lines(f), []) == Base64.Encode(f.data)
  {
    Base64.EncodeIsPlain(f.data);
    ChunksPlain(Base64.Encode(f.data));
    ChunksFit(Base64.Encode(f.data));
  }

  /** The wrapped data decodes to the data, with its last line end or without. */
  lemma WrappedDecodes(f: FileData)
    ensures Base64.Decode(WithoutLineEnds(Terminated(Lines(f)))) == Success(f.data)
    ensures Lines(f) != [] ==> Base64.Decode(WithoutLineEnds(Unterminated(Lines(f)))) == Success(f.data)
  {
    LinesFit(f);
    Unwrapped(Lines(f), []);
    assert Terminated(Lines(f)) + [] == Terminated(Lines(f));
    assert Join(Lines(f), []) + [] == Join(Lines(f), []);
    if Lines(f) != [] {
      UnwrappedFront(Lines(f));
    }
    Base64.DecodeEncode(f.data);
  }

  /** A printed attachment, with its wrapped data. */
  lemma FileTree(f: FileData, raw: Bytes, quote: Quote, lib: Library)
    requires Standard(lib) && PlainFile(f, quote)
    requires Base64.Decode(WithoutLineEnds(raw)) == Success(f.data)
    ensures TreeOf(RawPart(TrimmedAll(FilePart(f, quote).fields), raw), lib) == FileTreeOf(f, lib)
  {
    FileLabels(f, quote, lib);
    FileDecodes(f, raw, lib);
  }

  lemma FileDecodes(f: FileData, raw: Bytes, lib: Library)
    requires lib.Shrinks() && Base64.Decode(WithoutLineEnds(raw)) == Success(f.data)
    ensures DecodeContent(raw, BASE64, lib) == Some(f.data)
  {
    KeysDiffer();
    assert Trim(BASE64, Space) == BASE64;
  }

  // ---- Fields that a line can carry ----

  predicate KeyText(s: Bytes)
  {
    s != [] && forall i :: 0 <= i < |s| ==> 'a' <= s[i] <= 'z' || 'A' <= s[i] <= 'Z' || s[i] == '-'
  }

  lemma FieldWritable(f: Field)
    requires KeyText(f.key) && Printable(f.value)
    ensures Writable(f, true) && Writable(f, false)
  {
    forall i | 0 <= i < |f.key|
      ensures f.key[i] !in "\r\n:" && KeyByte(f.key[i])
    {
    }
    forall i | 0 <= i < |f.value|
      ensures f.value[i] !in "\r\n" && ValueByte(f.value[i])
    {
    }
  }

  lemma TypeKey()
    ensures KeyText(CONTENT_TYPE)
  {
  }

  lemma DispositionKey()
    ensures KeyText(CONTENT_DISPOSITION)
  {
  }

  lemma EncodingKey()
    ensures KeyText(CONTENT_TRANSFER_ENCODING)
  {
  }

  lemma TextTypePrintable()
    ensures Printable(TEXT_TYPE)
  {
  }

  lemma HtmlTypePrintable()
    ensures Printable(HTML_TYPE)
  {
  }

  lemma MixedTypePrintable()
    ensures Printable(MIXED_TYPE)
  {
  }

  lemma AlternativeTypePrintable()
    ensures Printable(ALTERNATIVE_TYPE)
  {
  }

  lemma AttachmentPrintable()
    ensures Printable(ATTACHMENT)
  {
  }

  lemma TypeFieldWritable(value: Bytes)
    requires Printable(value)
    ensures Writable(Field(CONTENT_TYPE, value), true) && Writable(Field(CONTENT_TYPE, value), false)
  {
    TypeKey();
    FieldWritable(Field(CONTENT_TYPE, value));
  }

  lemma EncodingFieldWritable(value: Bytes)
    requires value == QUOTED_PRINTABLE || value == BASE64
    ensures Writable(Field(CONTENT_TRANSFER_ENCODING, value), true)
            && Writable(Field(CONTENT_TRANSFER_ENCODING, value), false)
  {
    EncodingKey();
    FieldWritable(Field(CONTENT_TRANSFER_ENCODING, value));
  }

  lemma PrintableConcat(a: Bytes, b: Bytes)
    requires Printable(a) && Printable(b)
    ensures Printable(a + b)
  {
  }

  lemma TextPartWritable(contentType: Bytes, body: Bytes)
    requires Printable(contentType)
    ensures WritablePart(TextPart(contentType, body))
  {
    TypeFieldWritable(contentType);
    EncodingFieldWritable(QUOTED_PRINTABLE);
  }

  lemma QuotedPrintable(s: Bytes)
    ensures Printable(['"'] + Escaped(s) + ['"'])
  {
    EscapedPrintable(s);
  }

  lemma DispositionWritable(filename: Bytes, quote: Quote)
    requires EscapesAscii(quote, filename)
    ensures Writable(Field(CONTENT_DISPOSITION, ATTACHMENT + quote(filename)), true)
  {
    DispositionKey();
    AttachmentPrintable();
    QuotedPrintable(filename);
    PrintableConcat(ATTACHMENT, quote(filename));
    FieldWritable(Field(CONTENT_DISPOSITION, ATTACHMENT + quote(filename)));
  }

  lemma AnyTypeWritable(value: Bytes)
    requires All(value, ValueByte)
    ensures Writable(Field(CONTENT_TYPE, value), true)
  {
    TypeKey();
    forall i | 0 <= i < |CONTENT_TYPE|
      ensures CONTENT_TYPE[i] !in "\r\n:" && KeyByte(CONTENT_TYPE[i])
    {
    }
  }

  lemma FilePartWritable(f: FileData, quote: Quote)
    requires PlainFile(f, quote)
    ensures WritablePart(FilePart(f, quote))
  {
    AnyTypeWritable(TypeOf(f));
    DispositionWritable(f.filename, quote);
    EncodingFieldWritable(BASE64);
  }

  // ---- The attachments of a mail ----

  predicate NoDash(s: Bytes)
  {
    forall i :: 0 <= i < |s| ==> s[i] != '-'
  }

  lemma NoDashIsClear(s: Bytes, b: Bytes)
    requires NoDash(s)
    ensures Clear(s, b)
  {
    forall i: nat | i <= |s|
      ensures !At(s, Mark(b), i)
    {
      AtByte(s, Mark(b), i, 0);
    }
  }

  lemma {:induction false} LinesNoDash(lines: seq<Bytes>)
    requires forall i :: 0 <= i < |lines| ==> Base64.Plain(lines[i])
    ensures NoDash(Terminated(lines)) && (lines != [] ==> NoDash(Unterminated(lines)))
  {
    if lines != [] {
      LinesNoDash(lines[1..]);
    }
  }

  /** A tree and what follows it, if there are both. */
  function Both(t: Option<Tree>, later: Option<seq<Tree>>): Option<seq<Tree>>
  {
    match (t, later)
    case (Some(x), Some(xs)) => Some([x] + xs)
    case (_, _) => None
  }

  ghost function FileTrees(files: seq<FileData>, lib: Library): Option<seq<Tree>>
    requires lib.Shrinks()
  {
    if files == [] then Some([]) else Both(FileTreeOf(files[0], lib), FileTrees(files[1..], lib))
  }

  lemma NextAtEnd(b: Bytes, lib: Library)
    requires Standard(lib) && Boundary(b)
    ensures lib.nextPart(Reader(Closing(b), CRLF, true), b) == End
    ensures lib.nextPart(Reader(CRLF + Closing(b), CRLF, true), b) == End
  {
    var r, q := Reader(Closing(b), CRLF, true), Reader(CRLF + Closing(b), CRLF, true);
    assert lib.nextPart(r, b) == NextPart(r, b) && lib.nextPart(q, b) == NextPart(q, b);
    assert Closing(b) + [] == Closing(b);
    SeekClosing(r, b, [], false);
    SeekClosing(r, b, [], true);
    SeekPastLineEnd(q, b, Closing(b));
  }

  lemma EndReached(b: Bytes, lib: Library)
    requires Standard(lib) && Boundary(b)
    ensures TreesFrom(Reader(Closing(b), CRLF, true), b, lib) == Some([])
    ensures TreesFrom(Reader(CRLF + Closing(b), CRLF, true), b, lib) == Some([])
  {
    NextAtEnd(b, lib);
  }

  /** A part behind a line end and its delimiter line is the next part. */
  lemma NextBehind(b: Bytes, s: Bytes, lib: Library)
    requires Standard(lib) && Boundary(b)
    ensures lib.nextPart(Reader(CRLF + (Opening(b) + s), CRLF, true), b) == ReadPart(s, b, CRLF)
  {
    var r := Reader(CRLF + (Opening(b) + s), CRLF, true);
    assert lib.nextPart(r, b) == NextPart(r, b);
    SeekPastLineEnd(r, b, Opening(b) + s);
    SeekOpening(Reader(Opening(b) + s, CRLF, true), b, s, true);
  }

  /** The trees of a part and of what follows it. */
  lemma TreesAfter(r: Reader, b: Bytes, lib: Library, part: RawPart, next: Reader, t: Option<Tree>,
                   later: Option<seq<Tree>>)
    requires lib.Shrinks() && lib.nextPart(r, b) == Next(part, next) && TreeOf(part, lib) == t
             && TreesFrom(next, b, lib) == later
    ensures TreesFrom(r, b, lib) == Both(t, later)
  {
  }

  /** What follows a part that is not the last: the next delimiter line. */
  lemma MoreFollows(b: Bytes, s: Bytes)
    ensures CRLF + (Opening(b) + s) == CRLF + Mark(b) + (CRLF + s)
    ensures EndsAt(CRLF + Mark(b) + (CRLF + s), |b| + 4)
  {
    assert CRLF + (Opening(b) + s) == CRLF + Mark(b) + (CRLF + s);
  }

  lemma CloseFollows(b: Bytes)
    ensures CRLF + Closing(b) == CRLF + Mark(b) + (DASHES + CRLF) && Closing(b) == Mark(b) + (DASHES + CRLF)
    ensures EndsAt(CRLF + Mark(b) + (DASHES + CRLF), |b| + 4) && EndsAt(Mark(b) + (DASHES + CRLF), |b| + 2)
  {
    assert Closing(b) == Mark(b) + (DASHES + CRLF);
    assert CRLF + Closing(b) == CRLF + Mark(b) + (DASHES + CRLF);
  }

  /** An attachment that others follow. */
  lemma ReadMiddleFile(f: FileData, b: Bytes, s: Bytes, quote: Quote)
    requires PlainFile(f, quote) && Boundary(b)
    ensures
      var p := FilePart(f, quote);
      ReadPart(PartText(p) + (CRLF + (Opening(b) + s)), b, CRLF) ==
      Next(RawPart(TrimmedAll(p.fields), Terminated(Lines(f))), Reader(CRLF + (Opening(b) + s), CRLF, true))
  {
    var p := FilePart(f, quote);
    FilePartWritable(f, quote);
    LinesFit(f);
    LinesNoDash(Lines(f));
    NoDashIsClear(p.body, b);
    MoreFollows(b, s);
    ReadWrittenPart(p, b, CRLF + s);
  }

  /** The last attachment loses its last line end to the boundary. */
  lemma ReadLastFile(f: FileData, b: Bytes, quote: Quote)
    requires PlainFile(f, quote) && Boundary(b)
    ensures
      var p := FilePart(f, quote);
      ReadPart(PartText(p) + Closing(b), b, CRLF) ==
      if Lines(f) == [] then Next(RawPart(TrimmedAll(p.fields), []), Reader(Closing(b), CRLF, true))
      else Next(RawPart(TrimmedAll(p.fields), Unterminated(Lines(f))), Reader(CRLF + Closing(b), CRLF, true))
  {
    var p := FilePart(f, quote);
    FilePartWritable(f, quote);
    CloseFollows(b);
    if Lines(f) == [] {
      assert PartText(p) == FieldsText(p.fields) + CRLF by {
        assert FieldsText(p.fields) + CRLF + [] == FieldsText(p.fields) + CRLF;
      }
      ReadEmptyPart(p.fields, b, DASHES + CRLF);
    } else {
      var q := RawPart(p.fields, Unterminated(Lines(f)));
      LinesFit(f);
      LinesNoDash(Lines(f));
      NoDashIsClear(q.body, b);
      LastLineEnd(Lines(f));
      MoveLineEnd(FieldsText(p.fields) + CRLF, q.body, Closing(b));
      ReadWrittenPart(q, b, DASHES + CRLF);
    }
  }

  lemma MoveLineEnd(a: Bytes, u: Bytes, c: Bytes)
    ensures a + (u + CRLF) + c == a + u + (CRLF + c)
  {
  }

  function LastReader(f: FileData, b: Bytes): Reader
  {
    Reader(if Lines(f) == [] then Closing(b) else CRLF + Closing(b), CRLF, true)
  }

  function LastBody(f: FileData): Bytes
  {
    if Lines(f) == [] then [] else Unterminated(Lines(f))
  }

  lemma NextIsLast(f: FileData, b: Bytes, quote: Quote, lib: Library)
    requires Standard(lib) && Boundary(b) && PlainFile(f, quote)
    ensures lib.nextPart(Reader(CRLF + (Opening(b) + (PartText(FilePart(f, quote)) + Closing(b))), CRLF, true), b) ==
            Next(RawPart(TrimmedAll(FilePart(f, quote).fields), LastBody(f)), LastReader(f, b))
  {
    NextBehind(b, PartText(FilePart(f, quote)) + Closing(b), lib);
    ReadLastFile(f, b, quote);
  }

  /** What follows a line end and a delimiter line is read as these trees. */
  ghost predicate ReadsFiles(rest: Bytes, b: Bytes, lib: Library, trees: Option<seq<Tree>>)
    requires lib.Shrinks()
  {
    TreesFrom(Reader(CRLF + (Opening(b) + rest), CRLF, true), b, lib) == trees
  }

  lemma LastFileRead(f: FileData, b: Bytes, quote: Quote, lib: Library)
    requires Standard(lib) && Boundary(b) && PlainFile(f, quote)
    ensures ReadsFiles(PartText(FilePart(f, quote)) + Closing(b), b, lib, Both(FileTreeOf(f, lib), Some([])))
  {
    NextIsLast(f, b, quote, lib);
    EndReached(b, lib);
    WrappedDecodes(f);
    FileTree(f, LastBody(f), quote, lib);
    TreesAfter(Reader(CRLF + (Opening(b) + (PartText(FilePart(f, quote)) + Closing(b))), CRLF, true), b, lib,
               RawPart(TrimmedAll(FilePart(f, quote).fields), LastBody(f)), LastReader(f, b), FileTreeOf(f, lib),
               Some([]));
  }

  lemma NextIsMiddle(f: FileData, b: Bytes, s: Bytes, quote: Quote, lib: Library)
    requires Standard(lib) && Boundary(b) && PlainFile(f, quote)
    ensures
      var rest := PartText(FilePart(f, quote)) + (CRLF + (Opening(b) + s));
      lib.nextPart(Reader(CRLF + (Opening(b) + rest), CRLF, true), b) ==
            Next(RawPart(TrimmedAll(FilePart(f, quote).fields), Terminated(Lines(f))),
                 Reader(CRLF + (Opening(b) + s), CRLF, true))
  {
    NextBehind(b, PartText(FilePart(f, quote)) + (CRLF + (Opening(b) + s)), lib);
    ReadMiddleFile(f, b, s, quote);
  }

  lemma MiddleFileRead(f: FileData, b: Bytes, s: Bytes, quote: Quote, lib: Library, later: Option<seq<Tree>>)
    requires Standard(lib) && Boundary(b) && PlainFile(f, quote)
    requires ReadsFiles(s, b, lib, later)
    ensures ReadsFiles(PartText(FilePart(f, quote)) + (CRLF + (Opening(b) + s)), b, lib,
                       Both(FileTreeOf(f, lib), later))
  {
    NextIsMiddle(f, b, s, quote, lib);
    WrappedDecodes(f);
    FileTree(f, Terminated(Lines(f)), quote, lib);
    var rest := PartText(FilePart(f, quote)) + (CRLF + (Opening(b) + s));
    TreesAfter(Reader(CRLF + (Opening(b) + rest), CRLF, true), b, lib,
               RawPart(TrimmedAll(FilePart(f, quote).fields), Terminated(Lines(f))),
               Reader(CRLF + (Opening(b) + s), CRLF, true),
               FileTreeOf(f, lib), later);
  }

  /** The attachments' text from behind the first line end and delimiter. */
  function FilesBehind(files: seq<FileData>, b: Bytes, quote: Quote): Bytes
    requires files != []
  {
    PartText(FilePart(files[0], quote)) + (FilesText(files[1..], b, quote) + Closing(b))
  }

  lemma FilesFront(files: seq<FileData>, b: Bytes, quote: Quote)
    requires files != []
    ensures FilesText(files, b, quote) + Closing(b) == CRLF + (Opening(b) + FilesBehind(files, b, quote))
  {
    FilesTextFront(PartText(FilePart(files[0], quote)), Opening(b), FilesText(files[1..], b, quote), Closing(b));
  }

  lemma FilesBehindIs(files: seq<FileData>, b: Bytes, quote: Quote)
    requires files != []
    ensures FilesBehind(files, b, quote) ==
            PartText(FilePart(files[0], quote)) +
            if |files| == 1 then Closing(b) else CRLF + (Opening(b) + FilesBehind(files[1..], b, quote))
  {
    if |files| == 1 {
      assert [] + Closing(b) == Closing(b);
    } else {
      FilesFront(files[1..], b, quote);
    }
  }

  ghost predicate PlainFiles(files: seq<FileData>, quote: Quote)
  {
    forall i :: 0 <= i < |files| ==> PlainFile(files[i], quote)
  }

  lemma OneTree(files: seq<FileData>, lib: Library)
    requires lib.Shrinks() && |files| == 1
    ensures FileTrees(files, lib) == Both(FileTreeOf(files[0], lib), Some([]))
  {
    assert FileTrees(files[1..], lib) == Some([]);
  }

  lemma LastRead(files: seq<FileData>, b: Bytes, quote: Quote, lib: Library)
    requires Standard(lib) && Boundary(b) && |files| == 1 && PlainFiles(files, quote)
    ensures ReadsFiles(FilesBehind(files, b, quote), b, lib, FileTrees(files, lib))
  {
    FilesBehindIs(files, b, quote);
    LastFileRead(files[0], b, quote, lib);
    OneTree(files, lib);
  }

  lemma MiddleRead(files: seq<FileData>, b: Bytes, quote: Quote, lib: Library)
    requires Standard(lib) && Boundary(b) && |files| > 1 && PlainFile(files[0], quote)
    requires ReadsFiles(FilesBehind(files[1..], b, quote), b, lib, FileTrees(files[1..], lib))
    ensures ReadsFiles(FilesBehind(files, b, quote), b, lib, FileTrees(files, lib))
  {
    FilesBehindIs(files, b, quote);
    MiddleFileRead(files[0], b, FilesBehind(files[1..], b, quote), quote, lib, FileTrees(files[1..], lib));
  }

  /** The attachments of a mail are read back in order, whatever their types; multiparts among them are taken apart. */
  lemma {:induction false} FilesRead(files: seq<FileData>, b: Bytes, quote: Quote, lib: Library)
    requires Standard(lib) && Boundary(b) && files != [] && PlainFiles(files, quote)
    ensures ReadsFiles(FilesBehind(files, b, quote), b, lib, FileTrees(files, lib))
    decreases |files|
  {
    if |files| == 1 {
      LastRead(files, b, quote, lib);
    } else {
      FilesRead(files[1..], b, quote, lib);
      MiddleRead(files, b, quote, lib);
    }
  }

  lemma FilesTextFront(p: Bytes, o: Bytes, more: Bytes, c: Bytes)
    ensures CRLF + (o + p) + more + c == CRLF + (o + (p + (more + c)))
  {
  }
}
