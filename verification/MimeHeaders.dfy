/**
  Header blocks (section 2.2 of RFC 5322), as net/mail and net/textproto read them: lines folded
  into fields, up to an empty line.
 */
module MimeHeaders {
  import opened Wrappers
  import opened Text
  import opened MimeText

  const MIME_VERSION: Bytes := "MIME-Version"
  const MESSAGE_ID: Bytes := "Message-ID"
  const FROM: Bytes := "From"
  const TO: Bytes := "To"
  const CC: Bytes := "Cc"
  const SUBJECT: Bytes := "Subject"
  const IN_REPLY_TO: Bytes := "In-Reply-To"
  const REFERENCES: Bytes := "References"
  const REPLY_TO: Bytes := "Reply-To"
  const DATE: Bytes := "Date"
  const CONTENT_TYPE: Bytes := "Content-Type"
  const CONTENT_DISPOSITION: Bytes := "Content-Disposition"
  const CONTENT_ID: Bytes := "Content-Id"
  const CONTENT_TRANSFER_ENCODING: Bytes := "Content-Transfer-Encoding"
  const QUOTED_PRINTABLE: Bytes := "quoted-printable"
  const BASE64: Bytes := "base64"

  datatype Field = Field(key: Bytes, value: Bytes)

  /** A block that ends in an empty line, one that the input ends in, or neither. */
  datatype Block = Done(fields: seq<Field>, body: Bytes) | Ended(fields: seq<Field>) | Malformed

  // ---- Reading ----

  /** The first line without its line end, and what follows it. */
  function ReadLine(s: Bytes): (r: (Bytes, Bytes))
    requires s != []
    ensures |r.1| < |s|
  {
    match Cut(s, '\n')
    case None => (s, [])
    case Some(halves) =>
      CutLengths(s, '\n');
      var line := halves.0;
      (if line != [] && line[|line| - 1] == '\r' then line[..|line| - 1] else line, halves.1)
  }

  lemma {:induction false} CutLengths(s: Bytes, sep: Byte)
    ensures Cut(s, sep).Some? ==> |Cut(s, sep).value.0| + 1 + |Cut(s, sep).value.1| == |s|
  {
    if s != [] && s[0] != sep {
      CutLengths(s[1..], sep);
    }
  }

  /** Continuation lines are those that start with a blank; each is joined to the line by one space. */
  function Unfold(line: Bytes, rest: Bytes): (r: (Bytes, Bytes))
    ensures |r.1| <= |rest|
    decreases |rest|
  {
    if rest == [] || !Blank(rest[0]) then (line, rest)
    else
      var more := TrimLeft(rest, Blank);
      if more == [] then (line + [' '], [])
      else
        var (next, rest') := ReadLine(more);
        Unfold(line + [' '] + Trim(next, Blank), rest')
  }

  predicate KeyByte(c: Byte)
  {
    ('a' <= c <= 'z') || ('A' <= c <= 'Z') || ('0' <= c <= '9') || c in "!#$%&'*+-.^_`|~ "
  }

  predicate ValueByte(c: Byte)
  {
    c == '\t' || (32 <= c as int && c as int != 127)
  }

  predicate All(s: Bytes, p: Byte -> bool)
  {
    forall i :: 0 <= i < |s| ==> p(s[i])
  }

  /** Fields from the start of a line. A part's header is checked byte by byte (strict), a mail's is not. */
  function ReadFields(s: Bytes, strict: bool): Block
    decreases |s|
  {
    if s == [] then Ended([])
    else
      var (line, rest) := ReadLine(s);
      if line == [] then Done([], rest)
      else if strict && ':' !in line then Malformed
      else
        var (whole, after) := Unfold(Trim(line, Blank), rest);
        match FieldOf(whole, strict)
        case None => Malformed
        case Some(f) => Prepend(f, ReadFields(after, strict))
  }

  /** The field of an unfolded line; a mail's field without a key is skipped. */
  function FieldOf(line: Bytes, strict: bool): Option<seq<Field>>
  {
    match Cut(line, ':')
    case None => None
    case Some(halves) =>
      if strict && (halves.0 == [] || !All(halves.0, KeyByte) || !All(halves.1, ValueByte)) then None
      else if halves.0 == [] then Some([])
      else Some([Field(halves.0, TrimLeft(halves.1, Blank))])
  }

  function Prepend(f: seq<Field>, b: Block): Block
  {
    match b
    case Done(fs, body) => Done(f + fs, body)
    case Ended(fs) => Ended(f + fs)
    case Malformed => Malformed
  }

  /** The first line of a block must not be a continuation. */
  function ReadBlock(s: Bytes, strict: bool): Block
  {
    if s != [] && Blank(s[0]) then Malformed else ReadFields(s, strict)
  }

  lemma {:induction false} BodyShorter(s: Bytes, strict: bool)
    ensures ReadFields(s, strict).Done? ==> |ReadFields(s, strict).body| < |s|
    decreases |s|
  {
    if s != [] {
      var (line, rest) := ReadLine(s);
      if line != [] {
        BodyShorter(Unfold(Trim(line, Blank), rest).1, strict);
      }
    }
  }

  /** Header.Get: the first value under the name, nothing if there is none. */
  function Get(fields: seq<Field>, name: Bytes): Bytes
  {
    if fields == [] then []
    else if EqualFold(fields[0].key, name) then fields[0].value
    else Get(fields[1..], name)
  }

  // ---- Writing ----

  const COLON: Bytes := ": "

  function FieldText(f: Field): Bytes
  {
    f.key + COLON + f.value + CRLF
  }

  function FieldsText(fields: seq<Field>): Bytes
  {
    if fields == [] then [] else FieldText(fields[0]) + FieldsText(fields[1..])
  }

  /** A field that a line can carry. */
  predicate Writable(f: Field, strict: bool)
  {
    && f.key != [] && !Blank(f.key[0]) && (forall i :: 0 <= i < |f.key| ==> f.key[i] !in "\r\n:")
    && (forall i :: 0 <= i < |f.value| ==> f.value[i] !in "\r\n")
    && (strict ==> All(f.key, KeyByte) && All(f.value, ValueByte))
  }

  /** A field as it is read back: the blanks around its value are gone. */
  function Trimmed(f: Field): Field
  {
    Field(f.key, Trim(f.value, Blank))
  }

  function TrimmedAll(fields: seq<Field>): (r: seq<Field>)
    ensures |r| == |fields|
    ensures forall i :: 0 <= i < |fields| ==> r[i] == Trimmed(fields[i])
  {
    if fields == [] then [] else [Trimmed(fields[0])] + TrimmedAll(fields[1..])
  }

  // ---- Reading what was written ----

  lemma ReadWrittenLine(line: Bytes, rest: Bytes)
    requires forall i :: 0 <= i < |line| ==> line[i] !in "\r\n"
    ensures ReadLine(line + CRLF + rest) == (line, rest)
  {
    var s := line + CRLF + rest;
    assert s == (line + ['\r']) + ['\n'] + rest;
    CutAt(line + ['\r'], '\n', rest);
    assert (line + ['\r'])[..|line|] == line;
  }

  /** What trimming leaves of a written line. */
  lemma TrimWrittenLine(key: Bytes, value: Bytes)
    requires key != [] && !Blank(key[0])
    ensures Trim(key + COLON + value, Blank) ==
            if TrimRight(value, Blank) == [] then TrimRight(key + [':'] + [' '], Blank)
                else key + [':'] + ([' '] + TrimRight(value, Blank))
  {
    assert key + COLON == key + [':'] + [' '];
    assert (key + COLON + value)[0] == key[0];
    TrimRightAppend(key + COLON, value);
    assert key + COLON + TrimRight(value, Blank) == key + [':'] + ([' '] + TrimRight(value, Blank));
  }

  lemma TrimBareColon(key: Bytes)
    ensures TrimRight(key + [':'] + [' '], Blank) == key + [':'] + []
  {
    var s := key + [':'] + [' '];
    assert s[..|s| - 1] == key + [':'];
    assert key + [':'] + [] == key + [':'];
  }

  /** Trimming the right end reaches into the front only when the back is blank. */
  lemma {:induction false} TrimRightAppend(a: Bytes, b: Bytes)
    ensures TrimRight(a + b, Blank) == if TrimRight(b, Blank) == [] then TrimRight(a, Blank)
            else a + TrimRight(b, Blank)
    decreases |b|
  {
    if b == [] {
      assert a + b == a;
    } else {
      var s := a + b;
      assert s[..|s| - 1] == a + b[..|b| - 1];
      if Blank(b[|b| - 1]) {
        TrimRightAppend(a, b[..|b| - 1]);
      }
    }
  }

  lemma {:induction false} TrimBothEmpty(s: Bytes)
    ensures Trim(s, Blank) == [] <==> TrimRight(s, Blank) == []
    ensures TrimRight(s, Blank) != [] ==> TrimLeft(TrimRight(s, Blank), Blank) == Trim(s, Blank)
  {
    if s != [] && Blank(s[0]) {
      TrimBothEmpty(s[1..]);
      assert s == [s[0]] + s[1..];
      TrimRightAppend([s[0]], s[1..]);
      if TrimRight(s[1..], Blank) != [] {
        assert TrimRight(s, Blank)[1..] == TrimRight(s[1..], Blank);
      } else {
        assert TrimRight([s[0]], Blank) == TrimRight([s[0]][..0], Blank);
      }
    } else if s != [] {
      TrimRightPrefix(s, Blank);
      TrimRightNonempty(s);
    }
  }

  lemma {:induction false} TrimRightNonempty(s: Bytes)
    requires s != [] && !Blank(s[0])
    ensures TrimRight(s, Blank) != []
    decreases |s|
  {
    if |s| > 1 && Blank(s[|s| - 1]) {
      TrimRightNonempty(s[..|s| - 1]);
    }
  }

  lemma WrittenField(f: Field, strict: bool)
    requires Writable(f, strict)
    ensures FieldOf(Trim(f.key + COLON + f.value, Blank), strict) == Some([Trimmed(f)])
  {
    TrimWrittenLine(f.key, f.value);
    TrimBothEmpty(f.value);
    var kept := TrimRight(f.value, Blank);
    if kept == [] {
      TrimBareColon(f.key);
      CutAt(f.key, ':', []);
    } else {
      var tail: Bytes := [' '] + kept;
      CutAt(f.key, ':', tail);
      assert tail[1..] == kept;
      TrimRightPrefix(f.value, Blank);
      assert strict ==> All(tail, ValueByte);
    }
  }

  /** One written field is read as that field, with its value trimmed. */
  lemma ReadField(f: Field, rest: Bytes, strict: bool)
    requires Writable(f, strict) && rest != [] && !Blank(rest[0])
    ensures ReadFields(FieldText(f) + rest, strict) == Prepend([Trimmed(f)], ReadFields(rest, strict))
  {
    var line := f.key + COLON + f.value;
    assert FieldText(f) + rest == line + CRLF + rest;
    ReadWrittenLine(line, rest);
    assert line[|f.key|] == ':';
    WrittenField(f, strict);
  }

  /** A written block is read back as its fields, trimmed, and the body behind the empty line. */
  lemma {:induction false} ReadWritten(fields: seq<Field>, body: Bytes, strict: bool)
    requires forall i :: 0 <= i < |fields| ==> Writable(fields[i], strict)
    ensures ReadFields(FieldsText(fields) + CRLF + body, strict) == Done(TrimmedAll(fields), body)
    ensures ReadBlock(FieldsText(fields) + CRLF + body, strict) == Done(TrimmedAll(fields), body)
    ensures FieldsText(fields) + CRLF + body != [] && !Blank((FieldsText(fields) + CRLF + body)[0])
  {
    if fields == [] {
      assert FieldsText(fields) + CRLF + body == [] + CRLF + body;
      ReadWrittenLine([], body);
    } else {
      var rest := FieldsText(fields[1..]) + CRLF + body;
      ReadWritten(fields[1..], body, strict);
      assert FieldsText(fields) + CRLF + body == FieldText(fields[0]) + rest;
      ReadField(fields[0], rest, strict);
    }
  }

  lemma {:induction false} FieldsTextConcat(a: seq<Field>, b: seq<Field>)
    ensures FieldsText(a + b) == FieldsText(a) + FieldsText(b)
  {
    if a == [] {
      assert a + b == b;
    } else {
      FieldsTextConcat(a[1..], b);
      assert (a + b)[1..] == a[1..] + b;
      Associates(FieldText(a[0]), FieldsText(a[1..]), FieldsText(b));
    }
  }

  lemma KeysApart(a: Bytes, b: Bytes)
    requires |a| != |b| || (a != [] && LowerByte(a[0]) != LowerByte(b[0]))
    ensures !EqualFold(a, b)
  {
  }

  lemma GetFirst(f: Field, rest: seq<Field>, name: Bytes)
    ensures Get([f] + rest, name) == if EqualFold(f.key, name) then f.value else Get(rest, name)
  {
    assert ([f] + rest)[1..] == rest;
  }
}
