/** The mail builder of the outbound worker: buildMIME and writeBodyPart. */
module MimePrinter {
  import opened Wrappers
  import opened Text
  import opened MimeText
  import opened MimeHeaders
  import opened Multipart
  import Base64

  /** The header of a mail; addresses are already formatted. */
  datatype Outgoing = Outgoing(messageId: Bytes, from: Bytes, to: seq<Bytes>, cc: seq<Bytes>, subject: Bytes,
                               inReplyTo: Bytes, references: seq<Bytes>, replyTo: Bytes)

  datatype FileData = FileData(contentType: Bytes, filename: Bytes, data: Bytes)

  /** The %q verb of the format library. */
  type Quote = Bytes -> Bytes

  const LINE_LENGTH := 76

  const OCTET_STREAM: Bytes := "application/octet-stream"
  const COMMA: Bytes := ", "
  const TEXT_TYPE: Bytes := "text/plain; charset=UTF-8"
  const HTML_TYPE: Bytes := "text/html; charset=UTF-8"
  const MIXED_TYPE: Bytes := "multipart/mixed; boundary="
  const ALTERNATIVE_TYPE: Bytes := "multipart/alternative; boundary="
  const ATTACHMENT: Bytes := "attachment; filename="

  const VERSION: Bytes := "1.0"

  // ---- What is written ----

  function Bracketed(id: Bytes): Bytes
  {
    ['<'] + id + ['>']
  }

  function AllBracketed(ids: seq<Bytes>): (r: seq<Bytes>)
    ensures |r| == |ids|
    ensures forall i :: 0 <= i < |ids| ==> r[i] == Bracketed(ids[i])
  {
    if ids == [] then [] else AllBracketed(ids[..|ids| - 1]) + [Bracketed(ids[|ids| - 1])]
  }

  function FieldIf(given: bool, key: Bytes, value: Bytes): seq<Field>
  {
    if given then [Field(key, value)] else []
  }

  function MessageFields(m: Outgoing): seq<Field>
  {
    [Field(MIME_VERSION, VERSION)]
    + (FieldIf(m.messageId != [], MESSAGE_ID, Bracketed(m.messageId))
       + ([Field(FROM, m.from)]
          + (FieldIf(m.to != [], TO, Join(m.to, COMMA))
             + (FieldIf(m.cc != [], CC, Join(m.cc, COMMA))
                + ([Field(SUBJECT, m.subject)]
                   + (FieldIf(m.inReplyTo != [], IN_REPLY_TO, Bracketed(m.inReplyTo))
                      + (FieldIf(m.references != [], REFERENCES, Join(AllBracketed(m.references), [' ']))
                         + FieldIf(m.replyTo != [], REPLY_TO, m.replyTo))))))))
  }

  function TextPart(contentType: Bytes, body: Bytes): RawPart
  {
    RawPart([Field(CONTENT_TYPE, contentType), Field(CONTENT_TRANSFER_ENCODING, QUOTED_PRINTABLE)], body)
  }

  function Alternative(text: Bytes, html: Bytes, inner: Bytes): Bytes
  {
    Opening(inner) + PartText(TextPart(TEXT_TYPE, text)) + CRLF
    + (Opening(inner) + PartText(TextPart(HTML_TYPE, html)) + CRLF + Closing(inner))
  }

  /** The body as a part: both forms as alternatives, or the one there is. */
  function BodyPart(text: Bytes, html: Bytes, inner: Bytes, quote: Quote): RawPart
  {
    if text != [] && html != []
        then RawPart([Field(CONTENT_TYPE, ALTERNATIVE_TYPE + quote(inner))], Alternative(text, html, inner))
    else if html != [] then TextPart(HTML_TYPE, html + CRLF)
    else TextPart(TEXT_TYPE, text + CRLF)
  }

  /** Lines of 76 bytes, and a last one of what is left. */
  function Chunks(e: Bytes): seq<Bytes>
  {
    if e == [] then [] else if |e| <= LINE_LENGTH then [e] else [e[..LINE_LENGTH]] + Chunks(e[LINE_LENGTH..])
  }

  function Terminated(lines: seq<Bytes>): Bytes
  {
    if lines == [] then [] else lines[0] + CRLF + Terminated(lines[1..])
  }

  /** No line is longer than section 6.8 of RFC 2045 allows, none is empty, and together they are the text. */
  lemma {:induction false} ChunksFit(e: Bytes)
    ensures forall i :: 0 <= i < |Chunks(e)| ==> 0 < |Chunks(e)[i]| <= LINE_LENGTH
    ensures Join(Chunks(e), []) == e
    ensures Chunks(e) == [] <==> e == []
  {
    if |e| > LINE_LENGTH {
      ChunksFit(e[LINE_LENGTH..]);
      assert e == e[..LINE_LENGTH] + [] + e[LINE_LENGTH..];
    }
  }

  function TypeOf(f: FileData): Bytes
  {
    if f.contentType == [] then OCTET_STREAM else f.contentType
  }

  function FilePart(f: FileData, quote: Quote): RawPart
  {
    RawPart([Field(CONTENT_TYPE, TypeOf(f)), Field(CONTENT_DISPOSITION, ATTACHMENT + quote(f.filename)),
             Field(CONTENT_TRANSFER_ENCODING, BASE64)],
            Terminated(Chunks(Base64.Encode(f.data))))
  }

  function FilesText(files: seq<FileData>, outer: Bytes, quote: Quote): Bytes
  {
    if files == [] then []
    else CRLF + (Opening(outer) + PartText(FilePart(files[0], quote))) + FilesText(files[1..], outer, quote)
  }

  function Mixed(text: Bytes, html: Bytes, files: seq<FileData>, outer: Bytes, inner: Bytes, quote: Quote): Bytes
  {
    Opening(outer) + PartText(BodyPart(text, html, inner, quote)) + FilesText(files, outer, quote) + Closing(outer)
  }

  /** The whole mail, as header fields and body. */
  function Mail(m: Outgoing, text: Bytes, html: Bytes, files: seq<FileData>, outer: Bytes, inner: Bytes,
                quote: Quote): RawPart
  {
    if files != [] then
      RawPart(MessageFields(m) + [Field(CONTENT_TYPE, MIXED_TYPE + quote(outer))],
              Mixed(text, html, files, outer, inner, quote))
    else
      var body := BodyPart(text, html, inner, quote);
      RawPart(MessageFields(m) + body.fields, body.body)
  }

  // ---- The builder ----

  /** bytes.Buffer */
  class Buffer {
    var data: Bytes

    constructor ()
      ensures data == []
    {
      data := [];
    }

    method Write(s: Bytes)
      modifies this
      ensures data == old(data) + s
    {
      data := data + s;
    }

    method WriteField(key: Bytes, value: Bytes)
      modifies this
      ensures data == old(data) + FieldText(Field(key, value))
    {
      data := data + (key + COLON + value + CRLF);
    }

    /** A field that is written only if there is something to say. */
    method WriteFieldIf(given: bool, key: Bytes, value: Bytes)
      modifies this
      ensures data == old(data) + FieldsText(FieldIf(given, key, value))
    {
      if given {
        WriteField(key, value);
        OneField(Field(key, value));
      }
    }
  }

  lemma OneField(f: Field)
    ensures FieldsText([f]) == FieldText(f)
  {
    assert FieldsText([f]) == FieldText(f) + FieldsText([f][1..]);
  }

  /** The loop that brackets the references. */
  method BracketAll(ids: seq<Bytes>) returns (refs: seq<Bytes>)
    ensures refs == AllBracketed(ids)
  {
    refs := [];
    for i := 0 to |ids|
      invariant refs == AllBracketed(ids[..i])
    {
      assert ids[..i + 1][..i] == ids[..i];
      refs := refs + [Bracketed(ids[i])];
    }
    assert ids[..|ids|] == ids;
  }

  /** The header of the mail, without the content type. */
  method WriteMessageFields(buf: Buffer, m: Outgoing)
    modifies buf
    ensures buf.data == old(buf.data) + FieldsText(MessageFields(m))
  {
    buf.WriteFieldIf(true, MIME_VERSION, VERSION);
    buf.WriteFieldIf(m.messageId != [], MESSAGE_ID, Bracketed(m.messageId));
    buf.WriteFieldIf(true, FROM, m.from);
    buf.WriteFieldIf(m.to != [], TO, Join(m.to, COMMA));
    buf.WriteFieldIf(m.cc != [], CC, Join(m.cc, COMMA));
    buf.WriteFieldIf(true, SUBJECT, m.subject);
    buf.WriteFieldIf(m.inReplyTo != [], IN_REPLY_TO, Bracketed(m.inReplyTo));
    var refs := BracketAll(m.references);
    buf.WriteFieldIf(m.references != [], REFERENCES, Join(refs, [' ']));
    buf.WriteFieldIf(m.replyTo != [], REPLY_TO, m.replyTo);
    MessageFieldsText(m, old(buf.data));
  }

  lemma PrependFields(a: seq<Field>, b: seq<Field>, before: Bytes)
    ensures before + FieldsText(a + b) == before + FieldsText(a) + FieldsText(b)
  {
    FieldsTextConcat(a, b);
    Associates(before, FieldsText(a), FieldsText(b));
  }

  /** The fields written one after another are the text of the field list. */
  lemma MessageFieldsText(m: Outgoing, before: Bytes)
    ensures before + FieldsText(MessageFields(m)) ==
            before + FieldsText(FieldIf(true, MIME_VERSION, VERSION))
            + FieldsText(FieldIf(m.messageId != [], MESSAGE_ID, Bracketed(m.messageId)))
            + FieldsText(FieldIf(true, FROM, m.from))
            + FieldsText(FieldIf(m.to != [], TO, Join(m.to, COMMA)))
            + FieldsText(FieldIf(m.cc != [], CC, Join(m.cc, COMMA)))
            + FieldsText(FieldIf(true, SUBJECT, m.subject))
            + FieldsText(FieldIf(m.inReplyTo != [], IN_REPLY_TO, Bracketed(m.inReplyTo)))
            + FieldsText(FieldIf(m.references != [], REFERENCES, Join(AllBracketed(m.references), [' '])))
            + FieldsText(FieldIf(m.replyTo != [], REPLY_TO, m.replyTo))
  {
    NineLists(FieldIf(true, MIME_VERSION, VERSION), FieldIf(m.messageId != [], MESSAGE_ID, Bracketed(m.messageId)),
              FieldIf(true, FROM, m.from), FieldIf(m.to != [], TO, Join(m.to, COMMA)),
              FieldIf(m.cc != [], CC, Join(m.cc, COMMA)), FieldIf(true, SUBJECT, m.subject),
              FieldIf(m.inReplyTo != [], IN_REPLY_TO, Bracketed(m.inReplyTo)),
              FieldIf(m.references != [], REFERENCES, Join(AllBracketed(m.references), [' '])),
              FieldIf(m.replyTo != [], REPLY_TO, m.replyTo), before);
  }

  lemma NineLists(f1: seq<Field>, f2: seq<Field>, f3: seq<Field>, f4: seq<Field>, f5: seq<Field>, f6: seq<Field>,
                  f7: seq<Field>, f8: seq<Field>, f9: seq<Field>, before: Bytes)
    ensures before + FieldsText(f1 + (f2 + (f3 + (f4 + (f5 + (f6 + (f7 + (f8 + f9)))))))) ==
            before + FieldsText(f1) + FieldsText(f2) + FieldsText(f3) + FieldsText(f4) + FieldsText(f5) + FieldsText(f6)
            + FieldsText(f7) + FieldsText(f8) + FieldsText(f9)
  {
    var b3 := before + FieldsText(f1) + FieldsText(f2) + FieldsText(f3);
    FourLists(f1, f2, f3, f4 + (f5 + (f6 + (f7 + (f8 + f9)))), before);
    FourLists(f4, f5, f6, f7 + (f8 + f9), b3);
    PrependFields(f7, f8 + f9, b3 + FieldsText(f4) + FieldsText(f5) + FieldsText(f6));
    PrependFields(f8, f9, b3 + FieldsText(f4) + FieldsText(f5) + FieldsText(f6) + FieldsText(f7));
  }

  lemma FourLists(f: seq<Field>, g: seq<Field>, h: seq<Field>, rest: seq<Field>, before: Bytes)
    ensures before + FieldsText(f + (g + (h + rest))) ==
            before + FieldsText(f) + FieldsText(g) + FieldsText(h) + FieldsText(rest)
  {
    PrependFields(f, g + (h + rest), before);
    PrependFields(g, h + rest, before + FieldsText(f));
    PrependFields(h, rest, before + FieldsText(f) + FieldsText(g));
  }

  lemma Regroup3(s: Bytes, a: Bytes, b: Bytes, c: Bytes)
    ensures s + a + b + c == s + (a + b + c)
  {
  }

  lemma Regroup4(s: Bytes, a: Bytes, b: Bytes, c: Bytes, d: Bytes)
    ensures s + a + b + c + d == s + (a + b + c + d)
  {
    Regroup3(s, a, b, c);
    Associates(s, a + b + c, d);
  }

  lemma TextPartText(s: Bytes, contentType: Bytes, body: Bytes)
    ensures s + FieldText(Field(CONTENT_TYPE, contentType))
            + FieldText(Field(CONTENT_TRANSFER_ENCODING, QUOTED_PRINTABLE)) + CRLF + body ==
            s + PartText(TextPart(contentType, body))
  {
    var f, g := Field(CONTENT_TYPE, contentType), Field(CONTENT_TRANSFER_ENCODING, QUOTED_PRINTABLE);
    TwoFields(f, g);
    Regroup4(s, FieldText(f), FieldText(g), CRLF, body);
  }

  method WriteTextPart(buf: Buffer, contentType: Bytes, body: Bytes)
    modifies buf
    ensures buf.data == old(buf.data) + PartText(TextPart(contentType, body))
  {
    buf.WriteField(CONTENT_TYPE, contentType);
    buf.WriteField(CONTENT_TRANSFER_ENCODING, QUOTED_PRINTABLE);
    buf.Write(CRLF);
    buf.Write(body);
    TextPartText(old(buf.data), contentType, body);
  }

  lemma TwoFields(f: Field, g: Field)
    ensures FieldsText([f, g]) == FieldText(f) + FieldText(g)
  {
    OneField(g);
    assert [f, g][1..] == [g];
  }

  /** writeBodyPart */
  method WriteBodyPart(buf: Buffer, text: Bytes, html: Bytes, inner: Bytes, quote: Quote)
    modifies buf
    ensures buf.data == old(buf.data) + PartText(BodyPart(text, html, inner, quote))
  {
    if text != [] && html != [] {
      buf.WriteField(CONTENT_TYPE, ALTERNATIVE_TYPE + quote(inner));
      buf.Write(CRLF);
      WriteAlternative(buf, text, html, inner);
      OneField(Field(CONTENT_TYPE, ALTERNATIVE_TYPE + quote(inner)));
      Regroup3(old(buf.data), FieldText(Field(CONTENT_TYPE, ALTERNATIVE_TYPE + quote(inner))), CRLF,
               Alternative(text, html, inner));
    } else if html != [] {
      WriteTextPart(buf, HTML_TYPE, html + CRLF);
    } else {
      WriteTextPart(buf, TEXT_TYPE, text + CRLF);
    }
  }

  lemma AlternativeText(s: Bytes, o: Bytes, p: Bytes, q: Bytes, c: Bytes)
    ensures s + o + p + CRLF + o + q + CRLF + c == s + (o + p + CRLF + (o + q + CRLF + c))
  {
    Regroup3(s, o, p, CRLF);
    Regroup4(s + o + p + CRLF, o, q, CRLF, c);
    Associates(s, o + p + CRLF, o + q + CRLF + c);
  }

  method WriteAlternative(buf: Buffer, text: Bytes, html: Bytes, inner: Bytes)
    modifies buf
    ensures buf.data == old(buf.data) + Alternative(text, html, inner)
  {
    buf.Write(Opening(inner));
    WriteTextPart(buf, TEXT_TYPE, text);
    buf.Write(CRLF);
    buf.Write(Opening(inner));
    WriteTextPart(buf, HTML_TYPE, html);
    buf.Write(CRLF);
    buf.Write(Closing(inner));
    AlternativeText(old(buf.data), Opening(inner), PartText(TextPart(TEXT_TYPE, text)),
                    PartText(TextPart(HTML_TYPE, html)), Closing(inner));
  }

  /** The loop that wraps encoded data. */
  method WriteWrapped(buf: Buffer, e: Bytes)
    modifies buf
    ensures buf.data == old(buf.data) + Terminated(Chunks(e))
  {
    var i := 0;
    ghost var done := 0;
    assert e[0..] == e;
    while i < |e|
      invariant 0 <= i && done == (if i < |e| then i else |e|)
      invariant old(buf.data) + Terminated(Chunks(e)) == buf.data + Terminated(Chunks(e[done..]))
    {
      var end := i + LINE_LENGTH;
      if end > |e| {
        end := |e|;
      }
      TerminatedStep(e, i, end);
      Regroup3(buf.data, e[i..end], CRLF, Terminated(Chunks(e[end..])));
      buf.Write(e[i..end]);
      buf.Write(CRLF);
      i, done := i + LINE_LENGTH, end;
    }
    assert e[|e|..] == [];
    assert buf.data + [] == buf.data;
  }

  lemma TerminatedStep(e: Bytes, i: nat, end: nat)
    requires i < |e| && end == if i + LINE_LENGTH > |e| then |e| else i + LINE_LENGTH
    ensures Terminated(Chunks(e[i..])) == e[i..end] + CRLF + Terminated(Chunks(e[end..]))
  {
    var rest := e[i..];
    if |rest| <= LINE_LENGTH {
      assert Chunks(rest) == [rest] && e[end..] == [];
      assert Terminated([rest]) == rest + CRLF + Terminated([rest][1..]);
    } else {
      assert rest[..LINE_LENGTH] == e[i..end] && rest[LINE_LENGTH..] == e[end..];
      assert Chunks(rest)[1..] == Chunks(e[end..]);
    }
  }

  method WriteFile(buf: Buffer, f: FileData, outer: Bytes, quote: Quote)
    modifies buf
    ensures buf.data == old(buf.data) + (CRLF + (Opening(outer) + PartText(FilePart(f, quote))))
  {
    buf.Write(CRLF);
    buf.Write(Opening(outer));
    var contentType := f.contentType;
    if contentType == [] {
      contentType := OCTET_STREAM;
    }
    buf.WriteField(CONTENT_TYPE, contentType);
    buf.WriteField(CONTENT_DISPOSITION, ATTACHMENT + quote(f.filename));
    buf.WriteField(CONTENT_TRANSFER_ENCODING, BASE64);
    buf.Write(CRLF);
    WriteWrapped(buf, Base64.Encode(f.data));
    FileText(old(buf.data), f, Opening(outer), quote);
  }

  lemma FileText(s: Bytes, f: FileData, o: Bytes, quote: Quote)
    ensures
      s + CRLF + o + FieldText(Field(CONTENT_TYPE, TypeOf(f)))
          + FieldText(Field(CONTENT_DISPOSITION, ATTACHMENT + quote(f.filename)))
      + FieldText(Field(CONTENT_TRANSFER_ENCODING, BASE64)) + CRLF + Terminated(Chunks(Base64.Encode(f.data)))
      == s + (CRLF + (o + PartText(FilePart(f, quote))))
  {
    var x, y, z := Field(CONTENT_TYPE, TypeOf(f)), Field(CONTENT_DISPOSITION, ATTACHMENT + quote(f.filename)),
        Field(CONTENT_TRANSFER_ENCODING, BASE64);
    var w := Terminated(Chunks(Base64.Encode(f.data)));
    ThreeFields(x, y, z);
    FileRegroup(s, o, FieldText(x), FieldText(y), FieldText(z), w);
  }

  lemma FileRegroup(s: Bytes, o: Bytes, x: Bytes, y: Bytes, z: Bytes, w: Bytes)
    ensures s + CRLF + o + x + y + z + CRLF + w == s + (CRLF + (o + (x + y + z + CRLF + w)))
  {
    Regroup3(s + CRLF + o, x, y, z);
    Associates(s + CRLF + o, x + y + z, CRLF);
    Associates(s + CRLF + o, x + y + z + CRLF, w);
    Associates(s + CRLF, o, x + y + z + CRLF + w);
    Associates(s, CRLF, o + (x + y + z + CRLF + w));
  }

  lemma ThreeFields(f: Field, g: Field, h: Field)
    ensures FieldsText([f, g, h]) == FieldText(f) + FieldText(g) + FieldText(h)
  {
    TwoFields(g, h);
    assert [f, g, h][1..] == [g, h];
  }

  /** buildMIME; the boundaries are the ids drawn for it. */
  method BuildMime(m: Outgoing, text: Bytes, html: Bytes, files: seq<FileData>, outer: Bytes, inner: Bytes,
                   quote: Quote)
    returns (raw: Bytes)
    ensures raw == PartText(Mail(m, text, html, files, outer, inner, quote))
  {
    var buf := new Buffer();
    WriteMessageFields(buf, m);
    assert buf.data == FieldsText(MessageFields(m)) by {
      assert [] + FieldsText(MessageFields(m)) == FieldsText(MessageFields(m));
    }
    if |files| > 0 {
      buf.WriteField(CONTENT_TYPE, MIXED_TYPE + quote(outer));
      buf.Write(CRLF);
      WriteMixed(buf, text, html, files, outer, inner, quote);
      MixedText(m, Field(CONTENT_TYPE, MIXED_TYPE + quote(outer)), Mixed(text, html, files, outer, inner, quote));
    } else {
      WriteBodyPart(buf, text, html, inner, quote);
      var body := BodyPart(text, html, inner, quote);
      PlainText(m, body);
    }
    raw := buf.data;
  }

  lemma MixedText(m: Outgoing, f: Field, body: Bytes)
    ensures FieldsText(MessageFields(m)) + FieldText(f) + CRLF + body == PartText(RawPart(MessageFields(m) + [f], body))
  {
    FieldsTextConcat(MessageFields(m), [f]);
    OneField(f);
  }

  lemma PlainText(m: Outgoing, body: RawPart)
    ensures FieldsText(MessageFields(m)) + PartText(body) ==
            PartText(RawPart(MessageFields(m) + body.fields, body.body))
  {
    FieldsTextConcat(MessageFields(m), body.fields);
    Regroup3(FieldsText(MessageFields(m)), FieldsText(body.fields), CRLF, body.body);
  }

  method WriteFiles(buf: Buffer, files: seq<FileData>, outer: Bytes, quote: Quote)
    modifies buf
    ensures buf.data == old(buf.data) + FilesText(files, outer, quote)
  {
    for i := 0 to |files|
      invariant old(buf.data) + FilesText(files, outer, quote) == buf.data + FilesText(files[i..], outer, quote)
    {
      FilesTextStep(buf.data, files, i, outer, quote);
      WriteFile(buf, files[i], outer, quote);
    }
    assert buf.data + [] == buf.data;
  }

  lemma FilesTextStep(s: Bytes, files: seq<FileData>, i: nat, outer: Bytes, quote: Quote)
    requires i < |files|
    ensures s + FilesText(files[i..], outer, quote) ==
            s + (CRLF + (Opening(outer) + PartText(FilePart(files[i], quote))))
                + FilesText(files[i + 1..], outer, quote)
  {
    assert files[i..][1..] == files[i + 1..];
    Associates(s, CRLF + (Opening(outer) + PartText(FilePart(files[i], quote))),
               FilesText(files[i + 1..], outer, quote));
  }

  method WriteMixed(buf: Buffer, text: Bytes, html: Bytes, files: seq<FileData>, outer: Bytes, inner: Bytes,
                    quote: Quote)
    modifies buf
    ensures buf.data == old(buf.data) + Mixed(text, html, files, outer, inner, quote)
  {
    buf.Write(Opening(outer));
    WriteBodyPart(buf, text, html, inner, quote);
    WriteFiles(buf, files, outer, quote);
    buf.Write(Closing(outer));
    Regroup4(old(buf.data), Opening(outer), PartText(BodyPart(text, html, inner, quote)),
             FilesText(files, outer, quote), Closing(outer));
  }
}
