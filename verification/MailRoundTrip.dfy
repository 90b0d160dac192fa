/** Whole mails: the text that BuildMime prints, parsed back. */
module MailRoundTrip {
  import opened Wrappers
  import opened Text
  import opened MimeText
  import opened MimeHeaders
  import opened MediaTypes
  import opened Multipart
  import opened MimeTypes
  import opened MimePrinter
  import opened MimeParser
  import opened MimeRoundTrip

  // ---- Multipart types ----

  lemma BoundaryQuoted(b: Bytes, quote: Quote)
    requires Boundary(b) && Quotes(quote)
    ensures Printable(b) && Value(quote(b)) == Some((b, []))
    ensures quote(b) != [] && !Space(quote(b)[0]) && Printable(quote(b)) && !Blank(quote(b)[|quote(b)| - 1])
  {
    BoundaryPlain(b);
    assert EscapesAscii(quote, b);
    ReadBackIff(b);
    QuotedValue(b);
    QuotedPrintable(b);
  }

  lemma BoundaryPlain(b: Bytes)
    requires Boundary(b)
    ensures Printable(b) && Ascii(b)
  {
  }

  lemma BoundaryKey()
    ensures Letters(BOUNDARY)
  {
  }

  lemma MultipartType(v: Bytes, name: Bytes, b: Bytes, text: Bytes)
    requires PlainName(name) && v == name + [';'] + ([' '] + BOUNDARY + ['='] + text)
    requires Value(text) == Some((b, [])) && text != [] && !Space(text[0])
    ensures ParseMediaType(v) == Parsed(MediaType(name, map[BOUNDARY := b]), true)
  {
    BoundaryKey();
    ParseWithParameter(name, BOUNDARY, text, b);
  }

  lemma MixedText(text: Bytes)
    ensures MIXED_TYPE + text == MIXED + [';'] + ([' '] + BOUNDARY + ['='] + text)
  {
    assert MIXED_TYPE == MIXED + [';'] + ([' '] + BOUNDARY + ['=']);
    Associates(MIXED + [';'], [' '] + BOUNDARY + ['='], text);
  }

  lemma AlternativeText(text: Bytes)
    ensures ALTERNATIVE_TYPE + text == ALTERNATIVE + [';'] + ([' '] + BOUNDARY + ['='] + text)
  {
    assert ALTERNATIVE_TYPE == ALTERNATIVE + [';'] + ([' '] + BOUNDARY + ['=']);
    Associates(ALTERNATIVE + [';'], [' '] + BOUNDARY + ['='], text);
  }

  // ---- The body as a part ----

  function TextLeaf(name: Bytes, data: Bytes): Tree
  {
    Leaf(Part(name, [], [], false, data))
  }

  function Decoded(name: Bytes, body: Bytes, lib: Library): Option<Tree>
  {
    match lib.quotedPrintable(body)
    case None => None
    case Some(data) => Some(TextLeaf(name, data))
  }

  /** The tree that the body of a mail with attachments is read back as. */
  function BodyTree(text: Bytes, html: Bytes, lib: Library): Option<Tree>
  {
    if text != [] && html != [] then
      match Both(Decoded(PLAIN, text, lib), Both(Decoded(HTML, html, lib), Some([])))
      case Some(children) => Some(Branch(children))
      case None => None
    else if html != [] then Decoded(HTML, html + CRLF, lib)
    else Decoded(PLAIN, text + CRLF, lib)
  }

  lemma TextRead(body: Bytes, lib: Library)
    requires Standard(lib)
    ensures TreeOf(RawPart(TrimmedAll(TextPart(TEXT_TYPE, body).fields), body), lib) == Decoded(PLAIN, body, lib)
  {
    TextType();
    PlainIsPlain();
    NamesApart(PLAIN);
    TextTree(TEXT_TYPE, PLAIN, body, lib);
  }

  lemma HtmlRead(body: Bytes, lib: Library)
    requires Standard(lib)
    ensures TreeOf(RawPart(TrimmedAll(TextPart(HTML_TYPE, body).fields), body), lib) == Decoded(HTML, body, lib)
  {
    HtmlType();
    HtmlIsPlain();
    NamesApart(HTML);
    TextTree(HTML_TYPE, HTML, body, lib);
  }

  lemma AlternativeShape(text: Bytes, html: Bytes, inner: Bytes)
    ensures
      var last := PartText(TextPart(HTML_TYPE, html)) + (CRLF + Closing(inner));
      Alternative(text, html, inner) ==
          Opening(inner) + (PartText(TextPart(TEXT_TYPE, text)) + (CRLF + (Opening(inner) + last)))
  {
    AlternativeGroups(Opening(inner), PartText(TextPart(TEXT_TYPE, text)), PartText(TextPart(HTML_TYPE, html)),
                      Closing(inner));
  }

  lemma AlternativeGroups(o: Bytes, p: Bytes, q: Bytes, c: Bytes)
    ensures o + p + CRLF + (o + q + CRLF + c) == o + (p + (CRLF + (o + (q + (CRLF + c)))))
  {
  }

  // ---- Reading one part after another ----

  /** The first part of a multipart that goes on. */
  lemma NextIsFirst(p: RawPart, b: Bytes, s: Bytes, lib: Library)
    requires Standard(lib) && Boundary(b) && WritablePart(p) && Clear(p.body, b)
    ensures lib.nextPart(NewReader(Opening(b) + (PartText(p) + (CRLF + (Opening(b) + s)))), b) ==
            Next(RawPart(TrimmedAll(p.fields), p.body), Reader(CRLF + (Opening(b) + s), CRLF, true))
  {
    var behind := PartText(p) + (CRLF + (Opening(b) + s));
    var r := NewReader(Opening(b) + behind);
    assert lib.nextPart(r, b) == NextPart(r, b);
    SeekOpening(r, b, behind, false);
    MoreFollows(b, s);
    ReadWrittenPart(p, b, CRLF + s);
  }

  /** A later part that is the last. */
  lemma NextIsFinal(p: RawPart, b: Bytes, lib: Library)
    requires Standard(lib) && Boundary(b) && WritablePart(p) && Clear(p.body, b)
    ensures lib.nextPart(Reader(CRLF + (Opening(b) + (PartText(p) + (CRLF + Closing(b)))), CRLF, true), b) ==
            Next(RawPart(TrimmedAll(p.fields), p.body), Reader(CRLF + Closing(b), CRLF, true))
  {
    NextBehind(b, PartText(p) + (CRLF + Closing(b)), lib);
    CloseFollows(b);
    ReadWrittenPart(p, b, DASHES + CRLF);
  }

  lemma FirstPartRead(p: RawPart, b: Bytes, s: Bytes, lib: Library, t: Option<Tree>, later: Option<seq<Tree>>)
    requires Standard(lib) && Boundary(b) && WritablePart(p) && Clear(p.body, b)
    requires TreeOf(RawPart(TrimmedAll(p.fields), p.body), lib) == t
    requires TreesFrom(Reader(CRLF + (Opening(b) + s), CRLF, true), b, lib) == later
    ensures TreesFrom(NewReader(Opening(b) + (PartText(p) + (CRLF + (Opening(b) + s)))), b, lib) == Both(t, later)
  {
    NextIsFirst(p, b, s, lib);
    TreesAfter(NewReader(Opening(b) + (PartText(p) + (CRLF + (Opening(b) + s)))), b, lib,
               RawPart(TrimmedAll(p.fields), p.body), Reader(CRLF + (Opening(b) + s), CRLF, true), t, later);
  }

  lemma FinalPartRead(p: RawPart, b: Bytes, lib: Library, t: Option<Tree>)
    requires Standard(lib) && Boundary(b) && WritablePart(p) && Clear(p.body, b)
    requires TreeOf(RawPart(TrimmedAll(p.fields), p.body), lib) == t
    ensures TreesFrom(Reader(CRLF + (Opening(b) + (PartText(p) + (CRLF + Closing(b)))), CRLF, true), b, lib) ==
            Both(t, Some([]))
  {
    NextIsFinal(p, b, lib);
    EndReached(b, lib);
    TreesAfter(Reader(CRLF + (Opening(b) + (PartText(p) + (CRLF + Closing(b)))), CRLF, true), b, lib,
               RawPart(TrimmedAll(p.fields), p.body), Reader(CRLF + Closing(b), CRLF, true), t, Some([]));
  }

  /** The alternatives are read back in order. */
  lemma AlternativeRead(text: Bytes, html: Bytes, inner: Bytes, lib: Library)
    requires Standard(lib) && Boundary(inner) && Clear(text, inner) && Clear(html, inner)
    ensures TreesFrom(NewReader(Alternative(text, html, inner)), inner, lib) ==
            Both(Decoded(PLAIN, text, lib), Both(Decoded(HTML, html, lib), Some([])))
  {
    AlternativeShape(text, html, inner);
    TextTypePrintable();
    HtmlTypePrintable();
    TextPartWritable(TEXT_TYPE, text);
    TextPartWritable(HTML_TYPE, html);
    TextRead(text, lib);
    HtmlRead(html, lib);
    TwoPartsRead(TextPart(TEXT_TYPE, text), TextPart(HTML_TYPE, html), inner, lib, Decoded(PLAIN, text, lib),
                 Decoded(HTML, html, lib));
  }

  lemma TwoPartsRead(p: RawPart, q: RawPart, b: Bytes, lib: Library, t: Option<Tree>, u: Option<Tree>)
    requires Standard(lib) && Boundary(b) && WritablePart(p) && WritablePart(q) && Clear(p.body, b) && Clear(q.body, b)
    requires TreeOf(RawPart(TrimmedAll(p.fields), p.body), lib) == t
    requires TreeOf(RawPart(TrimmedAll(q.fields), q.body), lib) == u
    ensures
      var rest := Opening(b) + (PartText(q) + (CRLF + Closing(b)));
      TreesFrom(NewReader(Opening(b) + (PartText(p) + (CRLF + rest))), b, lib) == Both(t, Both(u, Some([])))
  {
    FinalPartRead(q, b, lib, u);
    FirstPartRead(p, b, PartText(q) + (CRLF + Closing(b)), lib, t, Both(u, Some([])));
  }

  lemma AlternativeStart()
    ensures ALTERNATIVE_TYPE != [] && !Blank(ALTERNATIVE_TYPE[0])
  {
  }

  lemma AlternativeUntrimmed(inner: Bytes, quote: Quote)
    requires Quotes(quote) && Boundary(inner)
    ensures
      var v := ALTERNATIVE_TYPE + quote(inner);
      v != [] && Untrimmed(v)
  {
    BoundaryQuoted(inner, quote);
    AlternativeStart();
  }

  lemma AlternativeTypeRead(inner: Bytes, quote: Quote, lib: Library)
    requires Standard(lib) && Quotes(quote) && Boundary(inner)
    ensures lib.mediaType(ALTERNATIVE_TYPE + quote(inner)) ==
            Parsed(MediaType(ALTERNATIVE, map[BOUNDARY := inner]), true)
  {
    var v := ALTERNATIVE_TYPE + quote(inner);
    BoundaryQuoted(inner, quote);
    AlternativeIsPlain();
    AlternativeText(quote(inner));
    MultipartType(v, ALTERNATIVE, inner, quote(inner));
    assert lib.mediaType(v) == ParseMediaType(v);
  }

  lemma AlternativeLabels(inner: Bytes, quote: Quote, lib: Library)
    requires Standard(lib) && Quotes(quote) && Boundary(inner)
    ensures LabelsOf(TrimmedAll([Field(CONTENT_TYPE, ALTERNATIVE_TYPE + quote(inner))]), lib) ==
            Labels(MediaType(ALTERNATIVE, map[BOUNDARY := inner]), [], [], false, [])
  {
    var v := ALTERNATIVE_TYPE + quote(inner);
    AlternativeTypeRead(inner, quote, lib);
    AlternativeUntrimmed(inner, quote);
    TypeField(v);
    LabelsOfType(TrimmedAll([Field(CONTENT_TYPE, v)]), v, ALTERNATIVE, inner, lib);
  }

  /** A part with a type and a boundary, and nothing else. */
  lemma LabelsOfType(fields: seq<Field>, v: Bytes, name: Bytes, b: Bytes, lib: Library)
    requires Standard(lib) && lib.mediaType(v).media == MediaType(name, map[BOUNDARY := b])
    requires Get(fields, CONTENT_TYPE) == v && Get(fields, CONTENT_TRANSFER_ENCODING) == []
    requires Get(fields, CONTENT_DISPOSITION) == [] && Get(fields, CONTENT_ID) == []
    ensures LabelsOf(fields, lib) == Labels(MediaType(name, map[BOUNDARY := b]), [], [], false, [])
  {
    NoType();
    NothingEncoded(lib);
    assert lib.mediaType([]) == ParseMediaType([]);
    assert |BOUNDARY| != |NAME|;
  }

  lemma TypeField(v: Bytes)
    requires v != [] && !Blank(v[0]) && !Blank(v[|v| - 1])
    ensures
      var fields := TrimmedAll([Field(CONTENT_TYPE, v)]);
      && Get(fields, CONTENT_TYPE) == v && Get(fields, CONTENT_TRANSFER_ENCODING) == []
      && Get(fields, CONTENT_DISPOSITION) == [] && Get(fields, CONTENT_ID) == []
  {
    var f := Field(CONTENT_TYPE, v);
    assert TrimmedAll([f]) == [f] + [];
    KeysDiffer();
    GetFirst(f, [], CONTENT_TYPE);
    GetFirst(f, [], CONTENT_TRANSFER_ENCODING);
    GetFirst(f, [], CONTENT_DISPOSITION);
    GetFirst(f, [], CONTENT_ID);
  }

  /** No boundary occurs in what it separates. */
  ghost predicate Separates(text: Bytes, html: Bytes, outer: Bytes, inner: Bytes, quote: Quote)
  {
    && Boundary(outer) && Boundary(inner)
    && Clear(text, inner) && Clear(html, inner)
    && Clear(BodyPart(text, html, inner, quote).body, outer)
  }

  lemma BodyRead(text: Bytes, html: Bytes, inner: Bytes, quote: Quote, lib: Library)
    requires Standard(lib) && Quotes(quote) && Boundary(inner) && Clear(text, inner) && Clear(html, inner)
    ensures
      var p := BodyPart(text, html, inner, quote);
      TreeOf(RawPart(TrimmedAll(p.fields), p.body), lib) == BodyTree(text, html, lib)
  {
    if text != [] && html != [] {
      AlternativeLabels(inner, quote, lib);
      AlternativeIsPlain();
      AlternativeRead(text, html, inner, lib);
    } else if html != [] {
      HtmlRead(html + CRLF, lib);
    } else {
      TextRead(text + CRLF, lib);
    }
  }

  lemma BodyPartWritable(text: Bytes, html: Bytes, inner: Bytes, quote: Quote)
    requires Quotes(quote) && Boundary(inner)
    ensures WritablePart(BodyPart(text, html, inner, quote))
  {
    if text != [] && html != [] {
      BoundaryQuoted(inner, quote);
      AlternativeTypePrintable();
      PrintableConcat(ALTERNATIVE_TYPE, quote(inner));
      TypeFieldWritable(ALTERNATIVE_TYPE + quote(inner));
    } else if html != [] {
      HtmlTypePrintable();
      TextPartWritable(HTML_TYPE, html + CRLF);
    } else {
      TextTypePrintable();
      TextPartWritable(TEXT_TYPE, text + CRLF);
    }
  }

  // ---- The body of a mail with attachments ----

  lemma MixedShape(text: Bytes, html: Bytes, files: seq<FileData>, outer: Bytes, inner: Bytes, quote: Quote)
    requires files != []
    ensures Mixed(text, html, files, outer, inner, quote) ==
            Opening(outer) + (PartText(BodyPart(text, html, inner, quote))
                              + (CRLF + (Opening(outer) + FilesBehind(files, outer, quote))))
  {
    MixedGroups(Opening(outer), PartText(BodyPart(text, html, inner, quote)), FilesText(files, outer, quote),
                Closing(outer));
    FilesFront(files, outer, quote);
  }

  lemma MixedGroups(o: Bytes, p: Bytes, f: Bytes, c: Bytes)
    ensures o + p + f + c == o + (p + (f + c))
  {
  }

  lemma MixedRead(text: Bytes, html: Bytes, files: seq<FileData>, outer: Bytes, inner: Bytes, quote: Quote,
                  lib: Library)
    requires Standard(lib) && Quotes(quote) && Separates(text, html, outer, inner, quote)
    requires files != [] && PlainFiles(files, quote)
    ensures TreesFrom(NewReader(Mixed(text, html, files, outer, inner, quote)), outer, lib) ==
            Both(BodyTree(text, html, lib), FileTrees(files, lib))
  {
    MixedShape(text, html, files, outer, inner, quote);
    BodyPartWritable(text, html, inner, quote);
    BodyRead(text, html, inner, quote, lib);
    FilesRead(files, outer, quote, lib);
    FirstPartRead(BodyPart(text, html, inner, quote), outer, FilesBehind(files, outer, quote), lib,
                  BodyTree(text, html, lib), FileTrees(files, lib));
  }

  // ---- The header of a mail ----

  predicate OneLine(s: Bytes)
  {
    forall i :: 0 <= i < |s| ==> s[i] !in "\r\n"
  }

  ghost predicate OneLines(ss: seq<Bytes>)
  {
    forall i :: 0 <= i < |ss| ==> OneLine(ss[i])
  }

  /** Header values without line ends. */
  ghost predicate Carriable(m: Outgoing)
  {
    && OneLine(m.messageId) && OneLine(m.from) && OneLines(m.to) && OneLines(m.cc) && OneLine(m.subject)
    && OneLine(m.inReplyTo) && OneLines(m.references) && OneLine(m.replyTo)
  }

  lemma {:induction false} JoinOneLine(ss: seq<Bytes>, sep: Bytes)
    requires OneLines(ss) && OneLine(sep)
    ensures OneLine(Join(ss, sep))
  {
    if |ss| > 1 {
      JoinOneLine(ss[1..], sep);
    }
  }

  lemma LineWritable(f: Field)
    requires KeyText(f.key) && OneLine(f.value)
    ensures Writable(f, false)
  {
  }

  lemma MessageKeys()
    ensures KeyText(MIME_VERSION) && KeyText(MESSAGE_ID) && KeyText(FROM) && KeyText(TO) && KeyText(CC)
    ensures KeyText(SUBJECT) && KeyText(IN_REPLY_TO) && KeyText(REFERENCES) && KeyText(REPLY_TO)
  {
  }

  ghost predicate AllWritable(fields: seq<Field>)
  {
    forall i :: 0 <= i < |fields| ==> Writable(fields[i], false)
  }

  lemma WritableIf(given: bool, key: Bytes, value: Bytes)
    requires KeyText(key) && OneLine(value)
    ensures AllWritable(FieldIf(given, key, value)) && AllWritable([Field(key, value)])
  {
    LineWritable(Field(key, value));
  }

  lemma WritableConcat(a: seq<Field>, b: seq<Field>)
    requires AllWritable(a) && AllWritable(b)
    ensures AllWritable(a + b)
  {
  }

  lemma NineWritable(f1: seq<Field>, f2: seq<Field>, f3: seq<Field>, f4: seq<Field>, f5: seq<Field>, f6: seq<Field>,
                     f7: seq<Field>, f8: seq<Field>, f9: seq<Field>)
    requires AllWritable(f1) && AllWritable(f2) && AllWritable(f3) && AllWritable(f4) && AllWritable(f5)
             && AllWritable(f6)
    requires AllWritable(f7) && AllWritable(f8) && AllWritable(f9)
    ensures AllWritable(f1 + (f2 + (f3 + (f4 + (f5 + (f6 + (f7 + (f8 + f9))))))))
  {
    WritableConcat(f8, f9);
    WritableConcat(f7, f8 + f9);
    WritableConcat(f6, f7 + (f8 + f9));
    WritableConcat(f5, f6 + (f7 + (f8 + f9)));
    WritableConcat(f4, f5 + (f6 + (f7 + (f8 + f9))));
    WritableConcat(f3, f4 + (f5 + (f6 + (f7 + (f8 + f9)))));
    WritableConcat(f2, f3 + (f4 + (f5 + (f6 + (f7 + (f8 + f9))))));
    WritableConcat(f1, f2 + (f3 + (f4 + (f5 + (f6 + (f7 + (f8 + f9)))))));
  }

  lemma ReferencesOneLine(ids: seq<Bytes>)
    requires OneLines(ids)
    ensures OneLine(Join(AllBracketed(ids), [' ']))
  {
    assert OneLines(AllBracketed(ids));
    JoinOneLine(AllBracketed(ids), [' ']);
  }

  lemma MessageWritable(m: Outgoing)
    requires Carriable(m)
    ensures AllWritable(MessageFields(m))
  {
    MessageKeys();
    JoinOneLine(m.to, COMMA);
    JoinOneLine(m.cc, COMMA);
    ReferencesOneLine(m.references);
    WritableIf(true, MIME_VERSION, VERSION);
    WritableIf(m.messageId != [], MESSAGE_ID, Bracketed(m.messageId));
    WritableIf(true, FROM, m.from);
    WritableIf(m.to != [], TO, Join(m.to, COMMA));
    WritableIf(m.cc != [], CC, Join(m.cc, COMMA));
    WritableIf(true, SUBJECT, m.subject);
    WritableIf(m.inReplyTo != [], IN_REPLY_TO, Bracketed(m.inReplyTo));
    WritableIf(m.references != [], REFERENCES, Join(AllBracketed(m.references), [' ']));
    WritableIf(m.replyTo != [], REPLY_TO, m.replyTo);
    NineWritable([Field(MIME_VERSION, VERSION)], FieldIf(m.messageId != [], MESSAGE_ID, Bracketed(m.messageId)),
                 [Field(FROM, m.from)], FieldIf(m.to != [], TO, Join(m.to, COMMA)),
                 FieldIf(m.cc != [], CC, Join(m.cc, COMMA)), [Field(SUBJECT, m.subject)],
                 FieldIf(m.inReplyTo != [], IN_REPLY_TO, Bracketed(m.inReplyTo)),
                 FieldIf(m.references != [], REFERENCES, Join(AllBracketed(m.references), [' '])),
                 FieldIf(m.replyTo != [], REPLY_TO, m.replyTo));
  }

  // ---- Looking fields up ----

  function Lookup(fields: seq<Field>, name: Bytes): Option<Bytes>
  {
    if fields == [] then None
    else if EqualFold(fields[0].key, name) then Some(fields[0].value)
    else Lookup(fields[1..], name)
  }

  function First(a: Option<Bytes>, b: Option<Bytes>): Option<Bytes>
  {
    if a.Some? then a else b
  }

  function OrNothing(a: Option<Bytes>): Bytes
  {
    match a
    case Some(v) => v
    case None => []
  }

  /** Trimmed fields give the trimmed value. */
  lemma {:induction false} GetTrimmed(fields: seq<Field>, name: Bytes)
    ensures Get(TrimmedAll(fields), name) == Trim(OrNothing(Lookup(fields, name)), Blank)
  {
    if fields != [] {
      GetTrimmed(fields[1..], name);
      assert TrimmedAll(fields)[1..] == TrimmedAll(fields[1..]);
    }
  }

  lemma {:induction false} LookupConcat(a: seq<Field>, b: seq<Field>, name: Bytes)
    ensures Lookup(a + b, name) == First(Lookup(a, name), Lookup(b, name))
  {
    if a == [] {
      assert a + b == b;
    } else {
      LookupConcat(a[1..], b, name);
      assert (a + b)[1..] == a[1..] + b;
    }
  }

  function LookupIf(given: bool, key: Bytes, value: Bytes, name: Bytes): Option<Bytes>
  {
    if given && EqualFold(key, name) then Some(value) else None
  }

  lemma LookupField(given: bool, key: Bytes, value: Bytes, name: Bytes)
    ensures Lookup(FieldIf(given, key, value), name) == LookupIf(given, key, value, name)
    ensures Lookup([Field(key, value)], name) == LookupIf(true, key, value, name)
  {
    assert [Field(key, value)][1..] == [];
  }

  lemma NineLookups(f1: seq<Field>, f2: seq<Field>, f3: seq<Field>, f4: seq<Field>, f5: seq<Field>, f6: seq<Field>,
                    f7: seq<Field>, f8: seq<Field>, f9: seq<Field>, name: Bytes)
    ensures Lookup(f1 + (f2 + (f3 + (f4 + (f5 + (f6 + (f7 + (f8 + f9))))))), name) ==
            First(Lookup(f1, name), First(Lookup(f2, name), First(Lookup(f3, name),
            First(Lookup(f4, name), First(Lookup(f5, name), First(Lookup(f6, name),
            First(Lookup(f7, name), First(Lookup(f8, name), Lookup(f9, name)))))))))
  {
    LookupConcat(f1, f2 + (f3 + (f4 + (f5 + (f6 + (f7 + (f8 + f9)))))), name);
    LookupConcat(f2, f3 + (f4 + (f5 + (f6 + (f7 + (f8 + f9))))), name);
    LookupConcat(f3, f4 + (f5 + (f6 + (f7 + (f8 + f9)))), name);
    LookupConcat(f4, f5 + (f6 + (f7 + (f8 + f9))), name);
    LookupConcat(f5, f6 + (f7 + (f8 + f9)), name);
    LookupConcat(f6, f7 + (f8 + f9), name);
    LookupConcat(f7, f8 + f9, name);
    LookupConcat(f8, f9, name);
  }

  /** The field of a mail under a name: the first that is given and matches. */
  lemma MessageLookup(m: Outgoing, name: Bytes)
    ensures Lookup(MessageFields(m), name) ==
            First(LookupIf(true, MIME_VERSION, VERSION, name),
            First(LookupIf(m.messageId != [], MESSAGE_ID, Bracketed(m.messageId), name),
            First(LookupIf(true, FROM, m.from, name),
            First(LookupIf(m.to != [], TO, Join(m.to, COMMA), name),
            First(LookupIf(m.cc != [], CC, Join(m.cc, COMMA), name),
            First(LookupIf(true, SUBJECT, m.subject, name),
            First(LookupIf(m.inReplyTo != [], IN_REPLY_TO, Bracketed(m.inReplyTo), name),
            First(LookupIf(m.references != [], REFERENCES, Join(AllBracketed(m.references), [' ']), name),
                  LookupIf(m.replyTo != [], REPLY_TO, m.replyTo, name)))))))))
  {
    NineLookups([Field(MIME_VERSION, VERSION)], FieldIf(m.messageId != [], MESSAGE_ID, Bracketed(m.messageId)),
                [Field(FROM, m.from)], FieldIf(m.to != [], TO, Join(m.to, COMMA)),
                FieldIf(m.cc != [], CC, Join(m.cc, COMMA)), [Field(SUBJECT, m.subject)],
                FieldIf(m.inReplyTo != [], IN_REPLY_TO, Bracketed(m.inReplyTo)),
                FieldIf(m.references != [], REFERENCES, Join(AllBracketed(m.references), [' '])),
                FieldIf(m.replyTo != [], REPLY_TO, m.replyTo), name);
    LookupField(true, MIME_VERSION, VERSION, name);
    LookupField(m.messageId != [], MESSAGE_ID, Bracketed(m.messageId), name);
    LookupField(true, FROM, m.from, name);
    LookupField(m.to != [], TO, Join(m.to, COMMA), name);
    LookupField(m.cc != [], CC, Join(m.cc, COMMA), name);
    LookupField(true, SUBJECT, m.subject, name);
    LookupField(m.inReplyTo != [], IN_REPLY_TO, Bracketed(m.inReplyTo), name);
    LookupField(m.references != [], REFERENCES, Join(AllBracketed(m.references), [' ']), name);
    LookupField(m.replyTo != [], REPLY_TO, m.replyTo, name);
  }

  lemma MessageIdAlone()
    ensures !EqualFold(MIME_VERSION, MESSAGE_ID) && !EqualFold(FROM, MESSAGE_ID) && !EqualFold(TO, MESSAGE_ID)
    ensures !EqualFold(CC, MESSAGE_ID) && !EqualFold(SUBJECT, MESSAGE_ID) && !EqualFold(IN_REPLY_TO, MESSAGE_ID)
    ensures !EqualFold(REFERENCES, MESSAGE_ID) && !EqualFold(REPLY_TO, MESSAGE_ID)
            && !EqualFold(CONTENT_TYPE, MESSAGE_ID)
    ensures !EqualFold(CONTENT_TRANSFER_ENCODING, MESSAGE_ID)
  {
    KeysApart(REFERENCES, MESSAGE_ID);
  }

  lemma InReplyToAlone()
    ensures !EqualFold(MIME_VERSION, IN_REPLY_TO) && !EqualFold(FROM, IN_REPLY_TO) && !EqualFold(TO, IN_REPLY_TO)
    ensures !EqualFold(CC, IN_REPLY_TO) && !EqualFold(SUBJECT, IN_REPLY_TO) && !EqualFold(MESSAGE_ID, IN_REPLY_TO)
    ensures !EqualFold(REFERENCES, IN_REPLY_TO) && !EqualFold(REPLY_TO, IN_REPLY_TO)
            && !EqualFold(CONTENT_TYPE, IN_REPLY_TO)
    ensures !EqualFold(CONTENT_TRANSFER_ENCODING, IN_REPLY_TO)
  {
  }

  lemma ReferencesAlone()
    ensures !EqualFold(MIME_VERSION, REFERENCES) && !EqualFold(FROM, REFERENCES) && !EqualFold(TO, REFERENCES)
    ensures !EqualFold(CC, REFERENCES) && !EqualFold(SUBJECT, REFERENCES) && !EqualFold(MESSAGE_ID, REFERENCES)
    ensures !EqualFold(IN_REPLY_TO, REFERENCES) && !EqualFold(REPLY_TO, REFERENCES)
            && !EqualFold(CONTENT_TYPE, REFERENCES)
    ensures !EqualFold(CONTENT_TRANSFER_ENCODING, REFERENCES)
  {
    KeysApart(MESSAGE_ID, REFERENCES);
  }

  lemma FromAlone()
    ensures !EqualFold(MIME_VERSION, FROM) && !EqualFold(MESSAGE_ID, FROM) && !EqualFold(TO, FROM)
    ensures !EqualFold(CC, FROM) && !EqualFold(SUBJECT, FROM) && !EqualFold(IN_REPLY_TO, FROM)
    ensures !EqualFold(REFERENCES, FROM) && !EqualFold(REPLY_TO, FROM) && !EqualFold(CONTENT_TYPE, FROM)
    ensures !EqualFold(CONTENT_TRANSFER_ENCODING, FROM)
  {
  }

  lemma ToAlone()
    ensures !EqualFold(MIME_VERSION, TO) && !EqualFold(MESSAGE_ID, TO) && !EqualFold(FROM, TO)
    ensures !EqualFold(CC, TO) && !EqualFold(SUBJECT, TO) && !EqualFold(IN_REPLY_TO, TO)
    ensures !EqualFold(REFERENCES, TO) && !EqualFold(REPLY_TO, TO) && !EqualFold(CONTENT_TYPE, TO)
    ensures !EqualFold(CONTENT_TRANSFER_ENCODING, TO)
  {
    KeysApart(CC, TO);
  }

  lemma CcAlone()
    ensures !EqualFold(MIME_VERSION, CC) && !EqualFold(MESSAGE_ID, CC) && !EqualFold(FROM, CC)
    ensures !EqualFold(TO, CC) && !EqualFold(SUBJECT, CC) && !EqualFold(IN_REPLY_TO, CC)
    ensures !EqualFold(REFERENCES, CC) && !EqualFold(REPLY_TO, CC) && !EqualFold(CONTENT_TYPE, CC)
    ensures !EqualFold(CONTENT_TRANSFER_ENCODING, CC)
  {
    KeysApart(TO, CC);
  }

  lemma SubjectAlone()
    ensures !EqualFold(MIME_VERSION, SUBJECT) && !EqualFold(MESSAGE_ID, SUBJECT) && !EqualFold(FROM, SUBJECT)
    ensures !EqualFold(TO, SUBJECT) && !EqualFold(CC, SUBJECT) && !EqualFold(IN_REPLY_TO, SUBJECT)
    ensures !EqualFold(REFERENCES, SUBJECT) && !EqualFold(REPLY_TO, SUBJECT) && !EqualFold(CONTENT_TYPE, SUBJECT)
    ensures !EqualFold(CONTENT_TRANSFER_ENCODING, SUBJECT)
  {
  }

  lemma ReplyToAlone()
    ensures !EqualFold(MIME_VERSION, REPLY_TO) && !EqualFold(MESSAGE_ID, REPLY_TO) && !EqualFold(FROM, REPLY_TO)
    ensures !EqualFold(TO, REPLY_TO) && !EqualFold(CC, REPLY_TO) && !EqualFold(SUBJECT, REPLY_TO)
    ensures !EqualFold(IN_REPLY_TO, REPLY_TO) && !EqualFold(REFERENCES, REPLY_TO) && !EqualFold(CONTENT_TYPE, REPLY_TO)
    ensures !EqualFold(CONTENT_TRANSFER_ENCODING, REPLY_TO)
  {
  }

  lemma DateAlone()
    ensures !EqualFold(MIME_VERSION, DATE) && !EqualFold(MESSAGE_ID, DATE) && !EqualFold(FROM, DATE)
    ensures !EqualFold(TO, DATE) && !EqualFold(CC, DATE) && !EqualFold(SUBJECT, DATE)
    ensures !EqualFold(IN_REPLY_TO, DATE) && !EqualFold(REFERENCES, DATE) && !EqualFold(REPLY_TO, DATE)
    ensures !EqualFold(CONTENT_TYPE, DATE) && !EqualFold(CONTENT_TRANSFER_ENCODING, DATE)
  {
    KeysApart(FROM, DATE);
  }

  lemma ContentTypeAlone()
    ensures !EqualFold(MIME_VERSION, CONTENT_TYPE) && !EqualFold(FROM, CONTENT_TYPE) && !EqualFold(TO, CONTENT_TYPE)
    ensures !EqualFold(CC, CONTENT_TYPE) && !EqualFold(SUBJECT, CONTENT_TYPE) && !EqualFold(MESSAGE_ID, CONTENT_TYPE)
    ensures !EqualFold(IN_REPLY_TO, CONTENT_TYPE) && !EqualFold(REPLY_TO, CONTENT_TYPE)
            && !EqualFold(REFERENCES, CONTENT_TYPE)
  {
    KeysApart(MIME_VERSION, CONTENT_TYPE);
  }

  /** The fields behind those of the message: a content type, and for a single body its encoding. */
  ghost predicate Tail(tail: seq<Field>, contentType: Bytes)
  {
    || tail == [Field(CONTENT_TYPE, contentType)]
    || tail == [Field(CONTENT_TYPE, contentType), Field(CONTENT_TRANSFER_ENCODING, QUOTED_PRINTABLE)]
  }

  lemma TailLookups(tail: seq<Field>, contentType: Bytes, name: Bytes)
    requires Tail(tail, contentType)
    ensures EqualFold(CONTENT_TYPE, name) ==> Lookup(tail, name) == Some(contentType)
    ensures !EqualFold(CONTENT_TYPE, name) && !EqualFold(CONTENT_TRANSFER_ENCODING, name) ==> Lookup(tail, name) == None
  {
    var f, g := Field(CONTENT_TYPE, contentType), Field(CONTENT_TRANSFER_ENCODING, QUOTED_PRINTABLE);
    LookupField(true, f.key, f.value, name);
    LookupField(true, g.key, g.value, name);
    LookupConcat([f], [g], name);
    assert [f] + [g] == [f, g];
  }

  /** A field that is not of the tail is that of the message, trimmed. */
  lemma FieldRead(m: Outgoing, tail: seq<Field>, contentType: Bytes, name: Bytes)
    requires Tail(tail, contentType) && !EqualFold(CONTENT_TYPE, name) && !EqualFold(CONTENT_TRANSFER_ENCODING, name)
    ensures Get(TrimmedAll(MessageFields(m) + tail), name) == Trim(OrNothing(Lookup(MessageFields(m), name)), Blank)
  {
    TailLookups(tail, contentType, name);
    GetTrimmed(MessageFields(m) + tail, name);
    LookupConcat(MessageFields(m), tail, name);
    MessageLookup(m, name);
  }

  function IdText(id: Bytes): Bytes
  {
    if id == [] then [] else Bracketed(id)
  }

  /** The fields of a printed mail, as the parser asks for them. */
  function PrintedTexts(m: Outgoing): HeaderTexts
  {
    HeaderTexts(IdText(m.messageId), IdText(m.inReplyTo), Trim(Join(AllBracketed(m.references), [' ']), Blank),
                Trim(m.subject, Blank), [], Trim(m.from, Blank), Trim(m.replyTo, Blank),
                Trim(Join(m.to, COMMA), Blank), Trim(Join(m.cc, COMMA), Blank))
  }

  lemma MessageIdRead(m: Outgoing, tail: seq<Field>, contentType: Bytes)
    requires Tail(tail, contentType)
    ensures Get(TrimmedAll(MessageFields(m) + tail), MESSAGE_ID) == IdText(m.messageId)
  {
    MessageIdAlone();
    FieldRead(m, tail, contentType, MESSAGE_ID);
    MessageLookup(m, MESSAGE_ID);
  }

  lemma InReplyToRead(m: Outgoing, tail: seq<Field>, contentType: Bytes)
    requires Tail(tail, contentType)
    ensures Get(TrimmedAll(MessageFields(m) + tail), IN_REPLY_TO) == IdText(m.inReplyTo)
  {
    InReplyToAlone();
    FieldRead(m, tail, contentType, IN_REPLY_TO);
    MessageLookup(m, IN_REPLY_TO);
  }

  lemma ReferencesFieldRead(m: Outgoing, tail: seq<Field>, contentType: Bytes)
    requires Tail(tail, contentType)
    ensures Get(TrimmedAll(MessageFields(m) + tail), REFERENCES) == PrintedTexts(m).references
  {
    ReferencesAlone();
    FieldRead(m, tail, contentType, REFERENCES);
    MessageLookup(m, REFERENCES);
  }

  lemma SubjectRead(m: Outgoing, tail: seq<Field>, contentType: Bytes)
    requires Tail(tail, contentType)
    ensures Get(TrimmedAll(MessageFields(m) + tail), SUBJECT) == Trim(m.subject, Blank)
    ensures Get(TrimmedAll(MessageFields(m) + tail), DATE) == []
  {
    SubjectAlone();
    FieldRead(m, tail, contentType, SUBJECT);
    MessageLookup(m, SUBJECT);
    DateAlone();
    FieldRead(m, tail, contentType, DATE);
    MessageLookup(m, DATE);
  }

  lemma SenderRead(m: Outgoing, tail: seq<Field>, contentType: Bytes)
    requires Tail(tail, contentType)
    ensures Get(TrimmedAll(MessageFields(m) + tail), FROM) == Trim(m.from, Blank)
    ensures Get(TrimmedAll(MessageFields(m) + tail), REPLY_TO) == Trim(m.replyTo, Blank)
  {
    FromAlone();
    FieldRead(m, tail, contentType, FROM);
    MessageLookup(m, FROM);
    ReplyToAlone();
    FieldRead(m, tail, contentType, REPLY_TO);
    MessageLookup(m, REPLY_TO);
  }

  lemma RecipientsRead(m: Outgoing, tail: seq<Field>, contentType: Bytes)
    requires Tail(tail, contentType)
    ensures Get(TrimmedAll(MessageFields(m) + tail), TO) == Trim(Join(m.to, COMMA), Blank)
    ensures Get(TrimmedAll(MessageFields(m) + tail), CC) == Trim(Join(m.cc, COMMA), Blank)
  {
    ToAlone();
    FieldRead(m, tail, contentType, TO);
    MessageLookup(m, TO);
    CcAlone();
    FieldRead(m, tail, contentType, CC);
    MessageLookup(m, CC);
  }

  /** Every field that the parser asks for by name is read as it was printed, without the blanks at its ends. */
  lemma TextsRead(m: Outgoing, tail: seq<Field>, contentType: Bytes)
    requires Tail(tail, contentType)
    ensures TextsOf(TrimmedAll(MessageFields(m) + tail)) == PrintedTexts(m)
  {
    MessageIdRead(m, tail, contentType);
    InReplyToRead(m, tail, contentType);
    ReferencesFieldRead(m, tail, contentType);
    SubjectRead(m, tail, contentType);
    SenderRead(m, tail, contentType);
    RecipientsRead(m, tail, contentType);
  }

  // ---- Threading headers ----

  predicate FreeEnds(id: Bytes)
  {
    id == [] || (!Bracket(id[0]) && !Bracket(id[|id| - 1]))
  }

  /** Message-ID and In-Reply-To come back exactly when no bracket stands at either end of them. */
  lemma IdsReadIff(m: Outgoing, tail: seq<Field>, contentType: Bytes)
    requires Tail(tail, contentType)
    ensures
      var texts := TextsOf(TrimmedAll(MessageFields(m) + tail));
      && (Trim(texts.messageId, Bracket) == m.messageId <==> FreeEnds(m.messageId))
      && (Trim(texts.inReplyTo, Bracket) == m.inReplyTo <==> FreeEnds(m.inReplyTo))
  {
    TextsRead(m, tail, contentType);
    if m.messageId != [] {
      BracketsTrimmed(m.messageId);
    }
    if m.inReplyTo != [] {
      BracketsTrimmed(m.inReplyTo);
    }
  }

  ghost predicate IdWords(ids: seq<Bytes>)
  {
    forall i :: 0 <= i < |ids| ==> Word(ids[i]) && FreeEnds(ids[i])
  }

  lemma {:induction false} JoinEnds(words: seq<Bytes>)
    requires words != [] && forall i :: 0 <= i < |words| ==>
             words[i] != [] && Bracket(words[i][0]) && Bracket(words[i][|words[i]| - 1])
    ensures
      var s := Join(words, [' ']);
      s != [] && Bracket(s[0]) && Bracket(s[|s| - 1])
  {
    if |words| > 1 {
      JoinEnds(words[1..]);
    }
  }

  lemma BracketedWord(id: Bytes)
    requires Word(id) && FreeEnds(id)
    ensures Word(Bracketed(id)) && Trim(Bracketed(id), Bracket) == id
    ensures Bracketed(id) != [] && Bracket(Bracketed(id)[0]) && Bracket(Bracketed(id)[|Bracketed(id)| - 1])
  {
    BracketsTrimmed(id);
  }

  lemma BracketedWords(ids: seq<Bytes>)
    requires IdWords(ids)
    ensures
      var words := AllBracketed(ids);
      && (forall i :: 0 <= i < |words| ==> Word(words[i]))
      && (forall i :: 0 <= i < |words| ==> words[i] != [] && Bracket(words[i][0]) && Bracket(words[i][|words[i]| - 1]))
      && TrimIds(words) == ids
  {
    var words := AllBracketed(ids);
    forall i | 0 <= i < |words|
      ensures Word(words[i]) && Trim(words[i], Bracket) == ids[i]
      ensures words[i] != [] && Bracket(words[i][0]) && Bracket(words[i][|words[i]| - 1])
    {
      BracketedWord(ids[i]);
    }
  }

  lemma JoinedWords(words: seq<Bytes>)
    requires words != [] && forall i :: 0 <= i < |words| ==> Word(words[i])
    requires forall i :: 0 <= i < |words| ==>
             words[i] != [] && Bracket(words[i][0]) && Bracket(words[i][|words[i]| - 1])
    ensures Join(words, [' ']) != [] && Trim(Join(words, [' ']), Blank) == Join(words, [' '])
    ensures Fields(Join(words, [' '])) == words
  {
    JoinEnds(words);
    FieldsOfJoin(words);
  }

  lemma ReferenceIds(ids: seq<Bytes>)
    requires IdWords(ids) && ids != []
    ensures IdsOf(Trim(Join(AllBracketed(ids), [' ']), Blank)) == ids
  {
    var words := AllBracketed(ids);
    BracketedWords(ids);
    JoinedWords(words);
  }

  /** References comes back as the same ids. */
  lemma ReferencesRead(m: Outgoing, tail: seq<Field>, contentType: Bytes)
    requires Tail(tail, contentType) && IdWords(m.references)
    ensures IdsOf(TextsOf(TrimmedAll(MessageFields(m) + tail)).references) == m.references
  {
    TextsRead(m, tail, contentType);
    if m.references != [] {
      ReferenceIds(m.references);
    }
  }

  lemma ContentTypeRead(m: Outgoing, tail: seq<Field>, contentType: Bytes)
    requires Tail(tail, contentType) && Untrimmed(contentType)
    ensures Get(TrimmedAll(MessageFields(m) + tail), CONTENT_TYPE) == contentType
  {
    TailLookups(tail, contentType, CONTENT_TYPE);
    GetTrimmed(MessageFields(m) + tail, CONTENT_TYPE);
    LookupConcat(MessageFields(m), tail, CONTENT_TYPE);
    MessageLookup(m, CONTENT_TYPE);
    ContentTypeAlone();
  }

  // ---- Whole mails ----

  /** A printed mail is read as its fields, trimmed, and its body. */
  lemma MessageRead(m: Outgoing, tail: seq<Field>, body: Bytes)
    requires AllWritable(MessageFields(m)) && AllWritable(tail)
    ensures ReadMessage(PartText(RawPart(MessageFields(m) + tail, body))) ==
            Some((TrimmedAll(MessageFields(m) + tail), body))
  {
    WritableConcat(MessageFields(m), tail);
    ReadWritten(MessageFields(m) + tail, body, false);
  }

  /** What the library reads in the text; nothing when there is no text or it reads none. */
  ghost predicate ReadList(got: seq<EmailAddress>, text: Bytes, lib: Library)
  {
    got == if text != [] && lib.addresses(text).Some? then lib.addresses(text).value else []
  }

  ghost predicate ReadOne(got: EmailAddress, text: Bytes, lib: Library)
  {
    if lib.address(text).Some? then got == lib.address(text).value else got.email == [] && got.name == []
  }

  /** The addresses that the library reads in the printed From, Reply-To, To and Cc. */
  ghost predicate KeepsPeople(people: People, m: Outgoing, lib: Library)
  {
    && ReadOne(people.from, Trim(m.from, Blank), lib)
    && ReadList(people.to, Trim(Join(m.to, COMMA), Blank), lib)
    && ReadList(people.cc, Trim(Join(m.cc, COMMA), Blank), lib)
    && people.replyTo ==
       (if Trim(m.replyTo, Blank) != [] && lib.address(Trim(m.replyTo, Blank)).Some?
        then lib.address(Trim(m.replyTo, Blank)).value.email else [])
  }

  lemma PeoplePrinted(m: Outgoing, lib: Library)
    ensures KeepsPeople(PeopleFrom(PrintedTexts(m), lib), m, lib)
  {
  }

  /** The header of a mail is read as it was printed: the same ids, the decoded subject, and the same people. */
  ghost predicate KeepsHeader(said: Contents, m: Outgoing, lib: Library)
  {
    && said.ids == Ids(m.messageId, m.inReplyTo, m.references, lib.words(Trim(m.subject, Blank)), None)
    && KeepsPeople(said.people, m, lib)
  }

  ghost predicate GoodIds(m: Outgoing)
  {
    FreeEnds(m.messageId) && FreeEnds(m.inReplyTo) && IdWords(m.references)
  }

  lemma HeaderKept(m: Outgoing, tail: seq<Field>, contentType: Bytes, lib: Library, leaves: seq<Part>)
    requires Tail(tail, contentType) && GoodIds(m)
    ensures
      var fields := TrimmedAll(MessageFields(m) + tail);
      KeepsHeader(Contents(fields, IdsFrom(TextsOf(fields), lib), PeopleFrom(TextsOf(fields), lib), leaves), m, lib)
  {
    PeoplePrinted(m, lib);
    TextsRead(m, tail, contentType);
    IdsReadIff(m, tail, contentType);
    ReferencesRead(m, tail, contentType);
  }

  lemma OutcomeOf(m: Outgoing, tail: seq<Field>, contentType: Bytes, body: Bytes, lib: Library)
    requires lib.Shrinks() && Carriable(m) && GoodIds(m) && AllWritable(tail) && Tail(tail, contentType)
             && Untrimmed(contentType)
    ensures
      var outcome := ParseOutcome(PartText(RawPart(MessageFields(m) + tail, body)), lib);
      match BodyLeaves(contentType, body, lib)
      case None => outcome.None?
      case Some(leaves) => outcome.Some? && KeepsHeader(outcome.value, m, lib) && outcome.value.leaves == leaves
  {
    MessageWritable(m);
    MessageRead(m, tail, body);
    ContentTypeRead(m, tail, contentType);
    if BodyLeaves(contentType, body, lib).Some? {
      HeaderKept(m, tail, contentType, lib, BodyLeaves(contentType, body, lib).value);
    }
  }

  function ExpectedAll(files: seq<FileData>, lib: Library): (r: seq<Part>)
    ensures |r| == |files|
    ensures forall i :: 0 <= i < |files| ==> r[i] == Expected(files[i], lib)
  {
    if files == [] then [] else [Expected(files[0], lib)] + ExpectedAll(files[1..], lib)
  }

  /** No attachment is taken apart. */
  predicate NoMultiparts(files: seq<FileData>)
  {
    forall i :: 0 <= i < |files| ==> !IsMultipart(ReadType(files[i]))
  }

  /** Every attachment that is taken apart can be. */
  ghost predicate FilesParse(files: seq<FileData>, lib: Library)
    requires lib.Shrinks()
  {
    forall i :: 0 <= i < |files| ==> FileTreeOf(files[i], lib).Some?
  }

  lemma ParseFront(files: seq<FileData>, lib: Library)
    requires lib.Shrinks() && files != []
    ensures FilesParse(files, lib) <==> FileTreeOf(files[0], lib).Some? && FilesParse(files[1..], lib)
  {
    if FilesParse(files[1..], lib) && FileTreeOf(files[0], lib).Some? {
      forall i | 0 <= i < |files|
        ensures FileTreeOf(files[i], lib).Some?
      {
        assert i > 0 ==> files[i] == files[1..][i - 1];
      }
    }
  }

  lemma {:induction false} FileTreesIff(files: seq<FileData>, lib: Library)
    requires lib.Shrinks()
    ensures FileTrees(files, lib).Some? <==> FilesParse(files, lib)
  {
    if files != [] {
      FileTreesIff(files[1..], lib);
      ParseFront(files, lib);
    }
  }

  lemma {:induction false} FileTreesFlat(files: seq<FileData>, lib: Library)
    requires lib.Shrinks() && NoMultiparts(files)
    ensures FileTrees(files, lib).Some? && AllLeaves(FileTrees(files, lib).value) == ExpectedAll(files, lib)
  {
    if files != [] {
      FileTreesFlat(files[1..], lib);
      var rest := FileTrees(files[1..], lib).value;
      assert ([Leaf(Expected(files[0], lib))] + rest)[1..] == rest;
    }
  }

  // ---- No leaf is a multipart ----

  predicate SingleParts(parts: seq<Part>)
  {
    forall i :: 0 <= i < |parts| ==> !(MULTIPART <= parts[i].contentType)
  }

  lemma SingleConcat(a: seq<Part>, b: seq<Part>)
    requires SingleParts(a) && SingleParts(b)
    ensures SingleParts(a + b)
  {
  }

  lemma {:induction false} TreeSingle(p: RawPart, lib: Library)
    requires lib.Shrinks()
    ensures TreeOf(p, lib).Some? ==> SingleParts(Leaves(TreeOf(p, lib).value))
    decreases |p.body|, 1
  {
    var labels := LabelsOf(p.fields, lib);
    var data := DecodeContent(p.body, labels.encoding, lib);
    if data.Some? && IsMultipart(labels.media) {
      TreesSingle(NewReader(data.value), ParamOf(labels.media, BOUNDARY), lib);
    }
  }

  lemma {:induction false} TreesSingle(r: Reader, b: Bytes, lib: Library)
    requires lib.Shrinks()
    ensures TreesFrom(r, b, lib).Some? ==> SingleParts(AllLeaves(TreesFrom(r, b, lib).value))
    decreases |r.rest|, 0
  {
    var step := lib.nextPart(r, b);
    if step.Next? && TreesFrom(r, b, lib).Some? {
      TreeSingle(step.part, lib);
      TreesSingle(step.reader, b, lib);
      var t, ts := TreeOf(step.part, lib).value, TreesFrom(step.reader, b, lib).value;
      assert ([t] + ts)[1..] == ts;
      SingleConcat(Leaves(t), AllLeaves(ts));
    }
  }

  lemma {:induction false} FilesSingle(files: seq<FileData>, lib: Library)
    requires lib.Shrinks()
    ensures FileTrees(files, lib).Some? ==> SingleParts(AllLeaves(FileTrees(files, lib).value))
  {
    if files != [] && FileTrees(files, lib).Some? {
      var t, ts := FileTreeOf(files[0], lib).value, FileTrees(files[1..], lib).value;
      FilesSingle(files[1..], lib);
      if IsMultipart(ReadType(files[0])) {
        TreesSingle(NewReader(files[0].data), ParamOf(ReadType(files[0]), BOUNDARY), lib);
      }
      assert ([t] + ts)[1..] == ts;
      SingleConcat(Leaves(t), AllLeaves(ts));
    }
  }

  lemma {:induction false} OthersSingle(parts: seq<Part>)
    requires SingleParts(parts)
    ensures SingleParts(Others(parts))
  {
    if parts != [] {
      OthersSingle(parts[..|parts| - 1]);
    }
  }

  /** Attachments are no bodies: all of them are listed. */
  lemma {:induction false} ListsAll(parts: seq<Part>, text: Bytes, html: Bytes)
    requires forall i :: 0 <= i < |parts| ==> IsOther(parts[i])
    ensures Others(parts) == parts && LastText(parts, text) == text && LastHtml(parts, html) == html
  {
    if parts != [] {
      ListsAll(parts[..|parts| - 1], text, html);
    }
  }

  lemma {:induction false} OthersAllIff(parts: seq<Part>)
    ensures |Others(parts)| <= |parts|
    ensures Others(parts) == parts <==> forall i :: 0 <= i < |parts| ==> IsOther(parts[i])
  {
    if parts != [] {
      var n := |parts| - 1;
      OthersAllIff(parts[..n]);
      assert parts == parts[..n] + [parts[n]];
      if !IsOther(parts[n]) {
        assert |Others(parts)| < |parts|;
      }
    }
  }

  /**
    No attachment passes for a body or is taken apart: none is a multipart, and none plain or HTML text without a
    name.
   */
  predicate AllListed(files: seq<FileData>, lib: Library)
  {
    NoMultiparts(files) && forall i :: 0 <= i < |files| ==> IsOther(Expected(files[i], lib))
  }

  lemma ExpectedOthers(files: seq<FileData>, lib: Library)
    requires forall i :: 0 <= i < |files| ==> IsOther(Expected(files[i], lib))
    ensures forall i :: 0 <= i < |files| ==> IsOther(ExpectedAll(files, lib)[i])
  {
    forall i | 0 <= i < |files|
      ensures IsOther(ExpectedAll(files, lib)[i])
    {
      assert ExpectedAll(files, lib)[i] == Expected(files[i], lib);
    }
  }

  lemma OthersExpected(files: seq<FileData>, lib: Library)
    requires forall i :: 0 <= i < |files| ==> IsOther(ExpectedAll(files, lib)[i])
    ensures forall i :: 0 <= i < |files| ==> IsOther(Expected(files[i], lib))
  {
    forall i | 0 <= i < |files|
      ensures IsOther(Expected(files[i], lib))
    {
      assert ExpectedAll(files, lib)[i] == Expected(files[i], lib);
    }
  }

  /** A multipart among the attachments is no leaf of the mail. */
  lemma MultipartMissing(files: seq<FileData>, lib: Library)
    requires lib.Shrinks() && FileTrees(files, lib).Some? && !NoMultiparts(files)
    ensures Others(AllLeaves(FileTrees(files, lib).value)) != ExpectedAll(files, lib)
  {
    var i :| 0 <= i < |files| && IsMultipart(ReadType(files[i]));
    FilesSingle(files, lib);
    OthersSingle(AllLeaves(FileTrees(files, lib).value));
    assert MULTIPART <= ExpectedAll(files, lib)[i].contentType;
  }

  lemma ListedIff(files: seq<FileData>, lib: Library)
    requires lib.Shrinks() && FileTrees(files, lib).Some?
    ensures Others(AllLeaves(FileTrees(files, lib).value)) == ExpectedAll(files, lib) <==> AllListed(files, lib)
  {
    if !NoMultiparts(files) {
      MultipartMissing(files, lib);
    } else {
      FileTreesFlat(files, lib);
      OthersAllIff(ExpectedAll(files, lib));
      if AllListed(files, lib) {
        ExpectedOthers(files, lib);
      } else if forall i :: 0 <= i < |files| ==> IsOther(ExpectedAll(files, lib)[i]) {
        OthersExpected(files, lib);
      }
    }
  }

  lemma ListedIsAll(files: seq<FileData>, lib: Library, text: Bytes, html: Bytes)
    requires AllListed(files, lib)
    ensures LastText(ExpectedAll(files, lib), text) == text && LastHtml(ExpectedAll(files, lib), html) == html
  {
    ExpectedOthers(files, lib);
    ListsAll(ExpectedAll(files, lib), text, html);
  }

  /** The bodies that a mail with attachments is read back with. */
  function TextOf(text: Bytes, html: Bytes, lib: Library): Option<Bytes>
  {
    if text == [] && html != [] then Some([])
    else lib.quotedPrintable(if html != [] then text else text + CRLF)
  }

  function HtmlOf(text: Bytes, html: Bytes, lib: Library): Option<Bytes>
  {
    if html == [] then Some([]) else lib.quotedPrintable(if text != [] then html else html + CRLF)
  }

  /** The leaves of the body: no attachment among them, and the two bodies as decoded. */
  lemma BodyLeavesAre(text: Bytes, html: Bytes, lib: Library)
    ensures BodyTree(text, html, lib).Some? <==> TextOf(text, html, lib).Some? && HtmlOf(text, html, lib).Some?
    ensures BodyTree(text, html, lib).Some? ==>
              var leaves := Leaves(BodyTree(text, html, lib).value);
              && Others(leaves) == []
              && LastText(leaves, []) == TextOf(text, html, lib).value
              && LastHtml(leaves, []) == HtmlOf(text, html, lib).value
  {
    NamesApart(PLAIN);
    if BodyTree(text, html, lib).Some? {
      if text != [] && html != [] {
        var t, h := lib.quotedPrintable(text).value, lib.quotedPrintable(html).value;
        TwoLeaves(t, h);
      } else if html != [] {
        OneLeaf(Part(HTML, [], [], false, lib.quotedPrintable(html + CRLF).value), []);
      } else {
        OneLeaf(Part(PLAIN, [], [], false, lib.quotedPrintable(text + CRLF).value), []);
      }
    }
  }

  lemma LoneLeaf(p: Part)
    ensures AllLeaves([Leaf(p)]) == [p]
  {
    assert [Leaf(p)][1..] == [];
    assert AllLeaves([Leaf(p)]) == Leaves(Leaf(p)) + AllLeaves([]);
  }

  lemma TwoLeaves(t: Bytes, h: Bytes)
    ensures
      var leaves := Leaves(Branch([TextLeaf(PLAIN, t)] + ([TextLeaf(HTML, h)] + [])));
      Others(leaves) == [] && LastText(leaves, []) == t && LastHtml(leaves, []) == h
  {
    NamesApart(PLAIN);
    var p, q := Part(PLAIN, [], [], false, t), Part(HTML, [], [], false, h);
    var ts: seq<Tree> := [Leaf(q)] + [];
    assert ts == [Leaf(q)] && [Leaf(p)] + ts == [Leaf(p), Leaf(q)];
    AllLeavesConcat([Leaf(p)], [Leaf(q)]);
    assert [Leaf(p)] + [Leaf(q)] == [Leaf(p), Leaf(q)];
    LoneLeaf(p);
    LoneLeaf(q);
    LeavesConcat([p], [q], []);
    OneLeaf(p, []);
    OneLeaf(q, t);
    OneLeaf(q, []);
  }

  lemma MixedTypeRead(outer: Bytes, quote: Quote, lib: Library)
    requires Standard(lib) && Quotes(quote) && Boundary(outer)
    ensures lib.mediaType(MIXED_TYPE + quote(outer)) == Parsed(MediaType(MIXED, map[BOUNDARY := outer]), true)
  {
    var v := MIXED_TYPE + quote(outer);
    BoundaryQuoted(outer, quote);
    MixedIsPlain();
    MixedText(quote(outer));
    MultipartType(v, MIXED, outer, quote(outer));
    assert lib.mediaType(v) == ParseMediaType(v);
  }

  ghost function FlatBoth(t: Option<Tree>, ts: Option<seq<Tree>>): Option<seq<Part>>
  {
    match (t, ts)
    case (Some(x), Some(xs)) => Some(Leaves(x) + AllLeaves(xs))
    case (_, _) => None
  }

  lemma MultipartLeaves(v: Bytes, name: Bytes, b: Bytes, body: Bytes, lib: Library, t: Option<Tree>,
                        ts: Option<seq<Tree>>)
    requires lib.Shrinks() && lib.mediaType(v) == Parsed(MediaType(name, map[BOUNDARY := b]), true)
             && MULTIPART <= name && b != []
    requires TreesFrom(NewReader(body), b, lib) == Both(t, ts)
    ensures BodyLeaves(v, body, lib) == FlatBoth(t, ts)
  {
    if t.Some? && ts.Some? {
      assert ([t.value] + ts.value)[1..] == ts.value;
    }
  }

  lemma MixedOutcome(text: Bytes, html: Bytes, files: seq<FileData>, outer: Bytes, inner: Bytes, quote: Quote,
                     lib: Library)
    requires Standard(lib) && Quotes(quote) && Separates(text, html, outer, inner, quote)
    requires files != [] && PlainFiles(files, quote)
    ensures BodyLeaves(MIXED_TYPE + quote(outer), Mixed(text, html, files, outer, inner, quote), lib) ==
            FlatBoth(BodyTree(text, html, lib), FileTrees(files, lib))
  {
    MixedTypeRead(outer, quote, lib);
    MixedIsPlain();
    MixedRead(text, html, files, outer, inner, quote, lib);
    MultipartLeaves(MIXED_TYPE + quote(outer), MIXED, outer, Mixed(text, html, files, outer, inner, quote), lib,
                    BodyTree(text, html, lib), FileTrees(files, lib));
  }

  lemma MixedTypeUntrimmed(outer: Bytes, quote: Quote)
    requires Boundary(outer) && Quotes(quote)
    ensures Untrimmed(MIXED_TYPE + quote(outer))
  {
    BoundaryQuoted(outer, quote);
    assert (MIXED_TYPE + quote(outer))[0] == MIXED_TYPE[0] == 'm';
  }

  lemma MixedTypeWritable(outer: Bytes, quote: Quote)
    requires Boundary(outer) && Quotes(quote)
    ensures Writable(Field(CONTENT_TYPE, MIXED_TYPE + quote(outer)), false)
  {
    BoundaryQuoted(outer, quote);
    MixedTypePrintable();
    PrintableConcat(MIXED_TYPE, quote(outer));
    TypeFieldWritable(MIXED_TYPE + quote(outer));
  }

  /** What the parser reports of the leaves of a mail with attachments. */
  ghost predicate Reports(leaves: seq<Part>, files: seq<FileData>, lib: Library, text: Bytes, html: Bytes)
  {
    && (Others(leaves) == ExpectedAll(files, lib) <==> AllListed(files, lib))
    && (AllListed(files, lib) ==> LastText(leaves, []) == text && LastHtml(leaves, []) == html)
  }

  lemma LeavesBehind(leaves: seq<Part>, more: seq<Part>, text: Bytes, html: Bytes)
    requires Others(leaves) == [] && LastText(leaves, []) == text && LastHtml(leaves, []) == html
    ensures Others(leaves + more) == Others(more)
    ensures LastText(leaves + more, []) == LastText(more, text) && LastHtml(leaves + more, []) == LastHtml(more, html)
  {
    LeavesConcat(leaves, more, []);
    assert [] + Others(more) == Others(more);
  }

  /** The leaves of the body, then those of the attachments. */
  lemma LeavesWithFiles(leaves: seq<Part>, files: seq<FileData>, lib: Library, text: Bytes, html: Bytes)
    requires lib.Shrinks() && FileTrees(files, lib).Some?
    requires Others(leaves) == [] && LastText(leaves, []) == text && LastHtml(leaves, []) == html
    ensures Reports(leaves + AllLeaves(FileTrees(files, lib).value), files, lib, text, html)
  {
    LeavesBehind(leaves, AllLeaves(FileTrees(files, lib).value), text, html);
    ListedIff(files, lib);
    if AllListed(files, lib) {
      FileTreesFlat(files, lib);
      ListedIsAll(files, lib, text, html);
    }
  }

  /** What a mail with attachments is read back as. */
  ghost predicate ReadWithFiles(outcome: Option<Contents>, m: Outgoing, text: Bytes, html: Bytes, files: seq<FileData>,
                                lib: Library)
    requires lib.Shrinks()
  {
    && (outcome.Some? <==> TextOf(text, html, lib).Some? && HtmlOf(text, html, lib).Some? && FilesParse(files, lib))
    && (outcome.Some? ==>
          && KeepsHeader(outcome.value, m, lib)
          && Some(outcome.value.leaves) == FlatBoth(BodyTree(text, html, lib), FileTrees(files, lib))
          && Reports(outcome.value.leaves, files, lib, TextOf(text, html, lib).value, HtmlOf(text, html, lib).value))
  }

  /**
    Print and parse, with attachments: the mail parses exactly when its bodies decode and multiparts among the
    attachments parse. Then the threading headers carry the same ids; and exactly when no attachment passes for a body
    or is taken apart the parser lists just the attachments, in order, each with its bytes and its labels as read. The
    bodies are then the decoded ones.
   */
  lemma RoundTripWithFiles(m: Outgoing, text: Bytes, html: Bytes, files: seq<FileData>, outer: Bytes, inner: Bytes,
                           quote: Quote, lib: Library)
    requires Standard(lib) && Quotes(quote) && Separates(text, html, outer, inner, quote)
    requires files != [] && PlainFiles(files, quote) && Carriable(m) && GoodIds(m)
    ensures ReadWithFiles(ParseOutcome(PartText(Mail(m, text, html, files, outer, inner, quote)), lib), m, text, html,
                          files, lib)
  {
    var tail := [Field(CONTENT_TYPE, MIXED_TYPE + quote(outer))];
    MixedTypeUntrimmed(outer, quote);
    MixedTypeWritable(outer, quote);
    MixedOutcome(text, html, files, outer, inner, quote, lib);
    OutcomeOf(m, tail, MIXED_TYPE + quote(outer), Mixed(text, html, files, outer, inner, quote), lib);
    ReadsWithFiles(ParseOutcome(PartText(Mail(m, text, html, files, outer, inner, quote)), lib), m, text, html, files,
                   lib);
  }

  lemma ReadsWithFiles(outcome: Option<Contents>, m: Outgoing, text: Bytes, html: Bytes, files: seq<FileData>,
                       lib: Library)
    requires lib.Shrinks()
    requires match FlatBoth(BodyTree(text, html, lib), FileTrees(files, lib))
             case None => outcome.None?
             case Some(leaves) => outcome.Some? && KeepsHeader(outcome.value, m, lib) && outcome.value.leaves == leaves
    ensures ReadWithFiles(outcome, m, text, html, files, lib)
  {
    BodyLeavesAre(text, html, lib);
    FileTreesIff(files, lib);
    if outcome.Some? {
      LeavesWithFiles(Leaves(BodyTree(text, html, lib).value), files, lib, TextOf(text, html, lib).value,
                      HtmlOf(text, html, lib).value);
    }
  }

  const NO_HEADERS := Outgoing([], [], [], [], [], [], [], [])

  function Nameless(data: Bytes): FileData
  {
    FileData(PLAIN, [], data)
  }

  lemma NamelessType(data: Bytes)
    ensures ReadType(Nameless(data)) == MediaType(PLAIN, map[])
  {
    PlainIsPlain();
    TypeUntrimmed(PLAIN);
    ParsePlain(PLAIN);
  }

  lemma NamelessLeaf(data: Bytes, lib: Library)
    requires Standard(lib)
    ensures FileTreeOf(Nameless(data), lib) == Some(TextLeaf(PLAIN, data))
  {
    NamelessType(data);
    NamesApart(PLAIN);
    NothingEncoded(lib);
  }

  lemma NamelessTree(data: Bytes, lib: Library)
    requires Standard(lib)
    ensures FileTrees([Nameless(data)], lib) == Some([TextLeaf(PLAIN, data)])
  {
    NamelessLeaf(data, lib);
    OneTree([Nameless(data)], lib);
    LoneTree(TextLeaf(PLAIN, data));
  }

  lemma LoneTree(t: Tree)
    ensures Both(Some(t), Some([])) == Some([t])
  {
    assert [t] + [] == [t];
  }

  lemma NamelessPlain(data: Bytes, quote: Quote)
    requires Quotes(quote)
    ensures PlainFile(Nameless(data), quote)
  {
    TextTypePrintable();
    forall i | 0 <= i < |PLAIN|
      ensures ValueByte(PLAIN[i])
    {
      assert PLAIN[i] == TEXT_TYPE[i];
    }
    assert Ascii([]);
  }

  lemma NoBodySeparates(quote: Quote)
    ensures Separates([], [], ['a'], ['b'], quote)
  {
    NoDashIsClear([], ['b']);
    NoDashIsClear([] + CRLF, ['a']);
  }

  lemma NamelessRead(outcome: Option<Contents>, data: Bytes, lib: Library)
    requires Standard(lib) && lib.quotedPrintable(CRLF).Some?
    requires ReadWithFiles(outcome, NO_HEADERS, [], [], [Nameless(data)], lib)
    ensures outcome.Some? && Others(outcome.value.leaves) == [] && LastText(outcome.value.leaves, []) == data
  {
    NamelessTree(data, lib);
    FileTreesIff([Nameless(data)], lib);
    assert [] + CRLF == CRLF;
    NamelessLeaves(lib.quotedPrintable(CRLF).value, data);
  }

  /** A plain text attached without a name is lost: the mail lists no attachment, and the file replaces the body. */
  lemma NamelessTextLost(data: Bytes, quote: Quote, lib: Library)
    requires Standard(lib) && Quotes(quote) && lib.quotedPrintable(CRLF).Some?
    ensures
      var outcome := ParseOutcome(PartText(Mail(NO_HEADERS, [], [], [Nameless(data)], ['a'], ['b'], quote)), lib);
      outcome.Some? && Others(outcome.value.leaves) == [] && LastText(outcome.value.leaves, []) == data
  {
    NamelessPlain(data, quote);
    NoBodySeparates(quote);
    RoundTripWithFiles(NO_HEADERS, [], [], [Nameless(data)], ['a'], ['b'], quote, lib);
    NamelessRead(ParseOutcome(PartText(Mail(NO_HEADERS, [], [], [Nameless(data)], ['a'], ['b'], quote)), lib), data,
                 lib);
  }

  lemma NamelessLeaves(body: Bytes, data: Bytes)
    ensures
      var leaves := Leaves(TextLeaf(PLAIN, body)) + AllLeaves([TextLeaf(PLAIN, data)]);
      Others(leaves) == [] && LastText(leaves, []) == data
  {
    var first, p := Part(PLAIN, [], [], false, body), Part(PLAIN, [], [], false, data);
    LoneLeaf(p);
    OneLeaf(first, []);
    OneLeaf(p, body);
    LeavesBehind([first], [p], body, []);
  }

  // ---- Without attachments ----

  /** The mail parses, keeps its header, lists nothing, and has these bodies. */
  ghost predicate SaysOnly(outcome: Option<Contents>, m: Outgoing, lib: Library, text: Bytes, html: Bytes)
  {
    && outcome.Some? && KeepsHeader(outcome.value, m, lib) && Others(outcome.value.leaves) == []
    && LastText(outcome.value.leaves, []) == text && LastHtml(outcome.value.leaves, []) == html
  }

  lemma LeafSays(outcome: Option<Contents>, m: Outgoing, lib: Library, name: Bytes, body: Bytes)
    requires outcome.Some? && KeepsHeader(outcome.value, m, lib)
             && outcome.value.leaves == [Part(name, [], [], false, body)]
    requires name == PLAIN || name == HTML
    ensures SaysOnly(outcome, m, lib, if name == PLAIN then body else [], if name == HTML then body else [])
  {
    NamesApart(name);
    OneLeaf(Part(name, [], [], false, body), []);
  }

  ghost predicate Typed(contentType: Bytes, name: Bytes, lib: Library)
  {
    && Untrimmed(contentType) && lib.mediaType(contentType) == Parsed(MediaType(name, map[CHARSET := UTF8]), true)
    && (name == PLAIN || name == HTML)
  }

  lemma SingleSays(m: Outgoing, tail: seq<Field>, contentType: Bytes, name: Bytes, body: Bytes, lib: Library)
    requires Standard(lib) && Carriable(m) && GoodIds(m) && AllWritable(tail) && Tail(tail, contentType)
    requires Typed(contentType, name, lib)
    ensures SaysOnly(ParseOutcome(PartText(RawPart(MessageFields(m) + tail, body)), lib), m, lib,
                     if name == PLAIN then body else [], if name == HTML then body else [])
  {
    NamesApart(name);
    SingleOutcome(m, tail, contentType, name, body, lib);
    LeafSays(ParseOutcome(PartText(RawPart(MessageFields(m) + tail, body)), lib), m, lib, name, body);
  }

  lemma BodyOnly(m: Outgoing, contentType: Bytes, name: Bytes, body: Bytes, lib: Library)
    requires Standard(lib) && Carriable(m) && GoodIds(m) && Printable(contentType) && Typed(contentType, name, lib)
    ensures
      var p := TextPart(contentType, body);
      SaysOnly(ParseOutcome(PartText(RawPart(MessageFields(m) + p.fields, p.body)), lib), m, lib,
               if name == PLAIN then body else [], if name == HTML then body else [])
  {
    TextPartWritable(contentType, body);
    SingleSays(m, TextPart(contentType, body).fields, contentType, name, body, lib);
  }

  lemma HtmlTyped(lib: Library)
    requires Standard(lib)
    ensures Typed(HTML_TYPE, HTML, lib)
  {
    HtmlTypeRead(lib);
  }

  lemma TextTyped(lib: Library)
    requires Standard(lib)
    ensures Typed(TEXT_TYPE, PLAIN, lib)
  {
    TextTypeRead(lib);
  }

  /** A mail of a single body is read as it was written: its transfer encoding is not looked at. */
  lemma RoundTripSingle(m: Outgoing, text: Bytes, html: Bytes, outer: Bytes, inner: Bytes, quote: Quote, lib: Library)
    requires Standard(lib) && Carriable(m) && GoodIds(m) && (text == [] || html == [])
    ensures SaysOnly(ParseOutcome(PartText(Mail(m, text, html, [], outer, inner, quote)), lib), m, lib,
                     if html != [] then [] else text + CRLF, if html != [] then html + CRLF else [])
  {
    NamesApart(PLAIN);
    if html != [] {
      HtmlTypePrintable();
      HtmlTyped(lib);
      BodyOnly(m, HTML_TYPE, HTML, html + CRLF, lib);
    } else {
      TextTypePrintable();
      TextTyped(lib);
      BodyOnly(m, TEXT_TYPE, PLAIN, text + CRLF, lib);
    }
  }

  lemma TextTypeRead(lib: Library)
    requires Standard(lib)
    ensures lib.mediaType(TEXT_TYPE) == Parsed(MediaType(PLAIN, map[CHARSET := UTF8]), true) && Untrimmed(TEXT_TYPE)
  {
    TextType();
    PlainIsPlain();
    CharsetRead(TEXT_TYPE, PLAIN, lib);
  }

  lemma HtmlTypeRead(lib: Library)
    requires Standard(lib)
    ensures lib.mediaType(HTML_TYPE) == Parsed(MediaType(HTML, map[CHARSET := UTF8]), true) && Untrimmed(HTML_TYPE)
  {
    HtmlType();
    HtmlIsPlain();
    CharsetRead(HTML_TYPE, HTML, lib);
  }

  lemma CharsetRead(v: Bytes, name: Bytes, lib: Library)
    requires Standard(lib) && PlainName(name) && v == name + [';'] + ([' '] + CHARSET + ['='] + UTF8)
    ensures lib.mediaType(v) == Parsed(MediaType(name, map[CHARSET := UTF8]), true) && Untrimmed(v)
  {
    WithCharset(v, name);
    TypeUntrimmed(name);
    assert lib.mediaType(v) == ParseMediaType(v);
  }

  lemma SingleOutcome(m: Outgoing, tail: seq<Field>, contentType: Bytes, name: Bytes, body: Bytes, lib: Library)
    requires Standard(lib) && Carriable(m) && GoodIds(m) && AllWritable(tail) && Tail(tail, contentType)
             && Untrimmed(contentType)
    requires lib.mediaType(contentType) == Parsed(MediaType(name, map[CHARSET := UTF8]), true) && !(MULTIPART <= name)
    ensures
      var outcome := ParseOutcome(PartText(RawPart(MessageFields(m) + tail, body)), lib);
      outcome.Some? && KeepsHeader(outcome.value, m, lib) && outcome.value.leaves == [Part(name, [], [], false, body)]
  {
    OutcomeOf(m, tail, contentType, body, lib);
  }

  /** What a mail with both bodies and no attachments is read back as. */
  ghost predicate ReadBoth(outcome: Option<Contents>, m: Outgoing, text: Bytes, html: Bytes, lib: Library)
  {
    && (outcome.Some? <==> lib.quotedPrintable(text).Some? && lib.quotedPrintable(html).Some?)
    && (outcome.Some? ==>
          && KeepsHeader(outcome.value, m, lib) && Others(outcome.value.leaves) == []
          && LastText(outcome.value.leaves, []) == lib.quotedPrintable(text).value
          && LastHtml(outcome.value.leaves, []) == lib.quotedPrintable(html).value)
  }

  lemma ReadsBoth(outcome: Option<Contents>, m: Outgoing, text: Bytes, html: Bytes, lib: Library)
    requires text != [] && html != []
    requires match BodyTree(text, html, lib)
             case None => outcome.None?
             case Some(t) => outcome.Some? && KeepsHeader(outcome.value, m, lib) && outcome.value.leaves == Leaves(t)
    ensures ReadBoth(outcome, m, text, html, lib)
  {
    BodyLeavesAre(text, html, lib);
  }

  /** With both bodies and no attachments the mail parses exactly when both decode, and nothing is listed. */
  lemma RoundTripAlternative(m: Outgoing, text: Bytes, html: Bytes, outer: Bytes, inner: Bytes, quote: Quote,
                             lib: Library)
    requires Standard(lib) && Quotes(quote) && Carriable(m) && GoodIds(m) && text != [] && html != []
    requires Boundary(inner) && Clear(text, inner) && Clear(html, inner)
    ensures ReadBoth(ParseOutcome(PartText(Mail(m, text, html, [], outer, inner, quote)), lib), m, text, html, lib)
  {
    var f := Field(CONTENT_TYPE, ALTERNATIVE_TYPE + quote(inner));
    var raw := PartText(RawPart(MessageFields(m) + [f], Alternative(text, html, inner)));
    AlternativeUntrimmed(inner, quote);
    AlternativeOutcome(text, html, inner, quote, lib);
    TypeFieldOnly(f, inner, quote);
    OutcomeOf(m, [f], f.value, Alternative(text, html, inner), lib);
    ReadsBoth(ParseOutcome(raw, lib), m, text, html, lib);
  }

  lemma AlternativeOutcome(text: Bytes, html: Bytes, inner: Bytes, quote: Quote, lib: Library)
    requires Standard(lib) && Quotes(quote) && text != [] && html != []
    requires Boundary(inner) && Clear(text, inner) && Clear(html, inner)
    ensures BodyLeaves(ALTERNATIVE_TYPE + quote(inner), Alternative(text, html, inner), lib) ==
            match BodyTree(text, html, lib)
            case None => None
            case Some(t) => Some(Leaves(t))
  {
    AlternativeTypeRead(inner, quote, lib);
    AlternativeIsPlain();
    AlternativeRead(text, html, inner, lib);
  }

  lemma TypeFieldOnly(f: Field, inner: Bytes, quote: Quote)
    requires Quotes(quote) && Boundary(inner) && f == Field(CONTENT_TYPE, ALTERNATIVE_TYPE + quote(inner))
    ensures Writable(f, false)
  {
    BoundaryQuoted(inner, quote);
    AlternativeTypePrintable();
    PrintableConcat(ALTERNATIVE_TYPE, quote(inner));
    TypeFieldWritable(f.value);
  }
}
