/** What the mail builder's bytes are, line by line (RFC 5322 and RFC 2046). */
module WireFormat {
  import opened Wrappers
  import opened Text
  import opened MimeText
  import opened MimeHeaders
  import opened Multipart
  import opened MimePrinter
  import Base64

  const LINE_END: Bytes := "\r\n"
  const TYPE_LABEL: Bytes := "Content-Type: "
  const MIXED: Bytes := "multipart/mixed; boundary="
  const ALTERNATIVES: Bytes := "multipart/alternative; boundary="
  const PLAIN_TEXT: Bytes := "text/plain; charset=UTF-8"
  const HTML_TEXT: Bytes := "text/html; charset=UTF-8"

  function Line(label': Bytes, value: Bytes): Bytes
  {
    label' + value + ['\r', '\n']
  }

  function LineIf(given: bool, label': Bytes, value: Bytes): Bytes
  {
    if given then Line(label', value) else []
  }

  function Angled(id: Bytes): Bytes
  {
    ['<'] + id + ['>']
  }

  lemma LineOf(key: Bytes, label': Bytes, value: Bytes)
    requires key + COLON == label'
    ensures FieldText(Field(key, value)) == Line(label', value)
  {
  }

  lemma LinesOf(given: bool, key: Bytes, label': Bytes, value: Bytes)
    requires key + COLON == label'
    ensures FieldsText(FieldIf(given, key, value)) == LineIf(given, label', value)
  {
    if given {
      OneField(Field(key, value));
      LineOf(key, label', value);
    }
  }

  lemma IdLabels()
    ensures MIME_VERSION + COLON == "MIME-Version: " && MESSAGE_ID + COLON == "Message-ID: "
    ensures IN_REPLY_TO + COLON == "In-Reply-To: " && REFERENCES + COLON == "References: "
  {
  }

  lemma PeopleLabels()
    ensures FROM + COLON == "From: " && TO + COLON == "To: " && CC + COLON == "Cc: " && REPLY_TO + COLON == "Reply-To: "
    ensures SUBJECT + COLON == "Subject: "
  {
  }

  lemma ContentLabels()
    ensures CONTENT_TYPE + COLON == TYPE_LABEL && CONTENT_DISPOSITION + COLON == "Content-Disposition: "
    ensures CONTENT_TRANSFER_ENCODING + COLON == "Content-Transfer-Encoding: "
  {
  }

  /** The header of a mail, as lines. */
  function HeaderText(m: Outgoing): Bytes
  {
    Line("MIME-Version: ", "1.0")
    + LineIf(m.messageId != [], "Message-ID: ", Angled(m.messageId))
    + Line("From: ", m.from)
    + LineIf(m.to != [], "To: ", Join(m.to, ", "))
    + LineIf(m.cc != [], "Cc: ", Join(m.cc, ", "))
    + Line("Subject: ", m.subject)
    + LineIf(m.inReplyTo != [], "In-Reply-To: ", Angled(m.inReplyTo))
    + LineIf(m.references != [], "References: ", Join(AllBracketed(m.references), " "))
    + LineIf(m.replyTo != [], "Reply-To: ", m.replyTo)
  }

  lemma FromNothing(a: Bytes)
    ensures [] + a == a
  {
  }

  lemma HeaderWritten(m: Outgoing)
    ensures FieldsText(MessageFields(m)) == HeaderText(m)
  {
    IdLabels();
    PeopleLabels();
    MessageFieldsText(m, []);
    FromNothing(FieldsText(MessageFields(m)));
    FromNothing(FieldsText(FieldIf(true, MIME_VERSION, VERSION)));
    LinesOf(true, MIME_VERSION, "MIME-Version: ", VERSION);
    LinesOf(m.messageId != [], MESSAGE_ID, "Message-ID: ", Bracketed(m.messageId));
    LinesOf(true, FROM, "From: ", m.from);
    LinesOf(m.to != [], TO, "To: ", Join(m.to, COMMA));
    LinesOf(m.cc != [], CC, "Cc: ", Join(m.cc, COMMA));
    LinesOf(true, SUBJECT, "Subject: ", m.subject);
    LinesOf(m.inReplyTo != [], IN_REPLY_TO, "In-Reply-To: ", Bracketed(m.inReplyTo));
    LinesOf(m.references != [], REFERENCES, "References: ", Join(AllBracketed(m.references), [' ']));
    LinesOf(m.replyTo != [], REPLY_TO, "Reply-To: ", m.replyTo);
  }

  // ---- Parts ----

  function DelimiterLine(b: Bytes): Bytes
  {
    ['-', '-'] + b + ['\r', '\n']
  }

  function LastDelimiter(b: Bytes): Bytes
  {
    ['-', '-'] + b + ['-', '-', '\r', '\n']
  }

  lemma DelimitersWritten(b: Bytes)
    ensures Opening(b) == DelimiterLine(b) && Closing(b) == LastDelimiter(b)
  {
    assert DASHES == ['-', '-'] && CRLF == ['\r', '\n'];
  }

  /** Body text, with its type. */
  function TypedText(contentType: Bytes, body: Bytes): Bytes
  {
    Line(TYPE_LABEL, contentType) + Line("Content-Transfer-Encoding: ", "quoted-printable") + LINE_END + body
  }

  lemma TypedWritten(contentType: Bytes, body: Bytes)
    ensures PartText(TextPart(contentType, body)) == TypedText(contentType, body)
  {
    ContentLabels();
    var f, g := Field(CONTENT_TYPE, contentType), Field(CONTENT_TRANSFER_ENCODING, QUOTED_PRINTABLE);
    TwoFields(f, g);
    LineOf(CONTENT_TYPE, TYPE_LABEL, contentType);
    LineOf(CONTENT_TRANSFER_ENCODING, "Content-Transfer-Encoding: ", QUOTED_PRINTABLE);
  }

  /** Both forms of the body, the plain one first. */
  function BothForms(text: Bytes, html: Bytes, b: Bytes): Bytes
  {
    DelimiterLine(b) + TypedText(PLAIN_TEXT, text) + LINE_END
    + (DelimiterLine(b) + TypedText(HTML_TEXT, html) + LINE_END + LastDelimiter(b))
  }

  lemma BothWritten(text: Bytes, html: Bytes, b: Bytes)
    ensures Alternative(text, html, b) == BothForms(text, html, b)
  {
    DelimitersWritten(b);
    TypedWritten(TEXT_TYPE, text);
    TypedWritten(HTML_TYPE, html);
  }

  /** The body: both forms as alternatives, or the one there is, or an empty plain text. */
  function BodyText(text: Bytes, html: Bytes, inner: Bytes, quote: Quote): Bytes
  {
    if text != [] && html != [] then
      Line(TYPE_LABEL, ALTERNATIVES + quote(inner)) + LINE_END + BothForms(text, html, inner)
    else if html != [] then TypedText(HTML_TEXT, html + LINE_END)
    else TypedText(PLAIN_TEXT, text + LINE_END)
  }

  lemma BodyWritten(text: Bytes, html: Bytes, inner: Bytes, quote: Quote)
    ensures PartText(BodyPart(text, html, inner, quote)) == BodyText(text, html, inner, quote)
  {
    if text != [] && html != [] {
      var value := ALTERNATIVE_TYPE + quote(inner);
      ContentLabels();
      OneField(Field(CONTENT_TYPE, value));
      LineOf(CONTENT_TYPE, TYPE_LABEL, value);
      BothWritten(text, html, inner);
    } else if html != [] {
      TypedWritten(HTML_TYPE, html + CRLF);
    } else {
      TypedWritten(TEXT_TYPE, text + CRLF);
    }
  }

  /** An attachment: its type, its quoted name, and its data in base64. */
  function AttachmentText(f: FileData, quote: Quote): Bytes
  {
    Line(TYPE_LABEL, if f.contentType == [] then "application/octet-stream" else f.contentType)
    + Line("Content-Disposition: ", "attachment; filename=" + quote(f.filename))
    + Line("Content-Transfer-Encoding: ", "base64") + LINE_END + Terminated(Chunks(Base64.Encode(f.data)))
  }

  lemma AttachmentWritten(f: FileData, quote: Quote)
    ensures PartText(FilePart(f, quote)) == AttachmentText(f, quote)
  {
    ContentLabels();
    var x, y, z := Field(CONTENT_TYPE, TypeOf(f)), Field(CONTENT_DISPOSITION, ATTACHMENT + quote(f.filename)),
        Field(CONTENT_TRANSFER_ENCODING, BASE64);
    ThreeFields(x, y, z);
    LineOf(CONTENT_TYPE, TYPE_LABEL, TypeOf(f));
    LineOf(CONTENT_DISPOSITION, "Content-Disposition: ", ATTACHMENT + quote(f.filename));
    LineOf(CONTENT_TRANSFER_ENCODING, "Content-Transfer-Encoding: ", BASE64);
  }

  function AllFiles(files: seq<FileData>, b: Bytes, quote: Quote): Bytes
  {
    if files == [] then []
    else ['\r', '\n'] + (DelimiterLine(b) + AttachmentText(files[0], quote)) + AllFiles(files[1..], b, quote)
  }

  lemma {:induction false} FilesWritten(files: seq<FileData>, b: Bytes, quote: Quote)
    ensures FilesText(files, b, quote) == AllFiles(files, b, quote)
  {
    if files != [] {
      DelimitersWritten(b);
      AttachmentWritten(files[0], quote);
      FilesWritten(files[1..], b, quote);
    }
  }

  // ---- The whole mail ----

  /** A mail as the bytes that go to SES. */
  function MailText(m: Outgoing, text: Bytes, html: Bytes, files: seq<FileData>, outer: Bytes, inner: Bytes,
                    quote: Quote): Bytes
  {
    if files == [] then HeaderText(m) + BodyText(text, html, inner, quote)
    else
      HeaderText(m) + Line(TYPE_LABEL, MIXED + quote(outer)) + LINE_END
      + (DelimiterLine(outer) + BodyText(text, html, inner, quote) + AllFiles(files, outer, quote)
         + LastDelimiter(outer))
  }

  /** What the builder prints is this text, byte for byte. */
  lemma MailWritten(m: Outgoing, text: Bytes, html: Bytes, files: seq<FileData>, outer: Bytes, inner: Bytes,
                    quote: Quote)
    ensures PartText(Mail(m, text, html, files, outer, inner, quote)) ==
            MailText(m, text, html, files, outer, inner, quote)
  {
    HeaderWritten(m);
    BodyWritten(text, html, inner, quote);
    if files == [] {
      PlainText(m, BodyPart(text, html, inner, quote));
    } else {
      var value := MIXED_TYPE + quote(outer);
      ContentLabels();
      LineOf(CONTENT_TYPE, TYPE_LABEL, value);
      FilesWritten(files, outer, quote);
      DelimitersWritten(outer);
      MixedText(m, Field(CONTENT_TYPE, value), Mixed(text, html, files, outer, inner, quote));
    }
  }
}
