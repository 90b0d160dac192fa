/** Multipart bodies (section 5.1 of RFC 2046), part by part, as mime/multipart reads them. */
module Multipart {
  import opened Wrappers
  import opened Text
  import opened MimeText
  import opened MimeHeaders

  datatype RawPart = RawPart(fields: seq<Field>, body: Bytes)

  /** What is left to read, the line end in use, and whether a part has been read. */
  datatype Reader = Reader(rest: Bytes, nl: Bytes, started: bool)

  /** NextPart together with the reading of the part's body; End is the regular end of the multipart. */
  datatype Step = Next(part: RawPart, reader: Reader) | End | Broken

  const LF: Bytes := "\n"
  const DASHES: Bytes := "--"

  function NewReader(data: Bytes): Reader
  {
    Reader(data, CRLF, false)
  }

  function Mark(b: Bytes): Bytes
  {
    DASHES + b
  }

  /** "--boundary--", blanks, line end */
  predicate IsFinal(line: Bytes, b: Bytes, nl: Bytes)
  {
    Mark(b) + DASHES <= line && (var rest := TrimLeft(line[|b| + 4..], Blank); rest == [] || rest == nl)
  }

  /** "--boundary", blanks, line end; before the first part a bare newline switches the line end. */
  function Delimiter(line: Bytes, r: Reader, b: Bytes): Option<Bytes>
  {
    if !(Mark(b) <= line) then None
    else
      var rest := TrimLeft(line[|b| + 2..], Blank);
      var nl := if !r.started && rest == LF then LF else r.nl;
      if rest == nl then Some(nl) else None
  }

  /** A boundary mark that ends at n counts only before a blank, a line end, two dashes or the end of input. */
  predicate EndsAt(s: Bytes, n: nat)
    requires n <= |s|
  {
    n == |s| || s[n] in " \t\r\n" || (s[n] == '-' && n + 1 < |s| && s[n + 1] == '-')
  }

  /** The first place from i on where the mark stands and counts. */
  function FirstEnd(s: Bytes, mark: Bytes, i: nat): (r: Option<nat>)
    requires i <= |s|
    ensures r.Some? ==> i <= r.value <= |s|
    decreases |s| - i
  {
    if At(s, mark, i) && EndsAt(s, i + |mark|) then Some(i)
    else if i == |s| then None
    else FirstEnd(s, mark, i + 1)
  }

  /** Where the body that starts here ends: at the line end before a boundary, or at once. */
  function BodyEnd(s: Bytes, b: Bytes, nl: Bytes): (r: Option<nat>)
    ensures r.Some? ==> r.value <= |s|
  {
    if Mark(b) <= s && EndsAt(s, |b| + 2) then Some(0) else FirstEnd(s, nl + Mark(b), 0)
  }

  /** A part from behind its delimiter line. A header that the input ends in counts as the end. */
  function ReadPart(s: Bytes, b: Bytes, nl: Bytes): (r: Step)
    ensures r.Next? ==> |r.part.body| + |r.reader.rest| < |s|
  {
    BodyShorter(s, true);
    match ReadBlock(s, true)
    case Malformed => Broken
    case Ended(_) => End
    case Done(fields, rest) =>
      match BodyEnd(rest, b, nl)
      case None => Broken
      case Some(i) => Next(RawPart(fields, rest[..i]), Reader(rest[i..], nl, true))
  }

  /** Looks for the next delimiter line; expecting says that an empty line has been passed. */
  function Seek(r: Reader, b: Bytes, expecting: bool): (step: Step)
    ensures step.Next? ==> |step.part.body| + |step.reader.rest| < |r.rest|
    decreases |r.rest|
  {
    if b == [] then Broken
    else
      match Cut(r.rest, '\n')
      case None => if IsFinal(r.rest, b, r.nl) then End else Broken
      case Some(halves) =>
        CutLengths(r.rest, '\n');
        var line := halves.0 + LF;
        match Delimiter(line, r, b)
        case Some(nl) => ReadPart(halves.1, b, nl)
        case None =>
          if IsFinal(line, b, r.nl) then End
          else if expecting then Broken
          else if !r.started then Seek(r.(rest := halves.1), b, false)
          else if line == r.nl then Seek(r.(rest := halves.1), b, true)
          else Broken
  }

  function NextPart(r: Reader, b: Bytes): (step: Step)
    ensures step.Next? ==> |step.part.body| + |step.reader.rest| < |r.rest|
  {
    Seek(r, b, false)
  }

  // ---- Reading what was written ----

  /** A boundary as uuid.String writes it: letters, digits and dashes. */
  predicate Boundary(b: Bytes)
  {
    b != [] && forall i :: 0 <= i < |b| ==> ('a' <= b[i] <= 'z') || ('0' <= b[i] <= '9') || b[i] == '-'
  }

  function Opening(b: Bytes): Bytes
  {
    Mark(b) + CRLF
  }

  function Closing(b: Bytes): Bytes
  {
    Mark(b) + DASHES + CRLF
  }

  function PartText(p: RawPart): Bytes
  {
    FieldsText(p.fields) + CRLF + p.body
  }

  predicate WritablePart(p: RawPart)
  {
    forall i :: 0 <= i < |p.fields| ==> Writable(p.fields[i], true)
  }

  lemma CutLine(line: Bytes, rest: Bytes)
    requires '\n' !in line
    ensures Cut(line + CRLF + rest, '\n') == Some((line + ['\r'], rest))
    ensures line + ['\r'] + LF == line + CRLF
  {
    assert line + CRLF + rest == (line + ['\r']) + ['\n'] + rest;
    CutAt(line + ['\r'], '\n', rest);
  }

  /** A delimiter line leads to the part behind it, whatever was read before. */
  lemma SeekOpening(r: Reader, b: Bytes, s: Bytes, expecting: bool)
    requires Boundary(b) && r.nl == CRLF && r.rest == Opening(b) + s
    ensures Seek(r, b, expecting) == ReadPart(s, b, CRLF)
  {
    var line := Mark(b);
    assert '\n' !in line;
    CutLine(line, s);
    assert r.rest == line + CRLF + s;
    assert (line + CRLF)[|b| + 2..] == CRLF;
    assert line <= line + CRLF;
  }

  /** The closing line ends the multipart. */
  lemma SeekClosing(r: Reader, b: Bytes, s: Bytes, expecting: bool)
    requires Boundary(b) && r.nl == CRLF && r.rest == Closing(b) + s
    ensures Seek(r, b, expecting) == End
  {
    var line := Mark(b) + DASHES;
    assert '\n' !in line;
    CutLine(line, s);
    assert r.rest == line + CRLF + s;
    assert (line + CRLF)[|b| + 2..] == DASHES + CRLF;
    assert (line + CRLF)[|b| + 4..] == CRLF;
    assert line <= line + CRLF;
    assert Delimiter(line + CRLF, r, b) == None;
  }

  /** Between parts, the line end that belongs to the boundary is passed. */
  lemma SeekPastLineEnd(r: Reader, b: Bytes, s: Bytes)
    requires Boundary(b) && r.nl == CRLF && r.started && r.rest == CRLF + s
    ensures Seek(r, b, false) == Seek(r.(rest := s), b, true)
  {
    CutLine([], s);
    assert r.rest == [] + CRLF + s;
    assert !(Mark(b) <= CRLF) by {
      assert Mark(b)[0] == '-';
    }
    assert !(Mark(b) + DASHES <= CRLF) by {
      assert (Mark(b) + DASHES)[0] == '-';
    }
    assert [] + CRLF == CRLF;
  }

  /** The text does not hold the boundary mark. */
  ghost predicate Clear(s: Bytes, b: Bytes)
  {
    forall i :: 0 <= i <= |s| ==> !At(s, Mark(b), i)
  }

  /** A boundary after clear text is found right behind the text, not before. */
  lemma {:induction false} FirstEndClear(raw: Bytes, b: Bytes, tail: Bytes, i: nat)
    requires Boundary(b) && Clear(raw, b) && i <= |raw|
    requires EndsAt(raw + (CRLF + Mark(b) + tail), |raw| + |b| + 4)
    ensures FirstEnd(raw + (CRLF + Mark(b) + tail), CRLF + Mark(b), i) == Some(|raw|)
    decreases |raw| - i
  {
    var s := raw + (CRLF + Mark(b) + tail);
    var mark := CRLF + Mark(b);
    if i == |raw| {
      assert s[i..i + |mark|] == mark;
    } else {
      assert !At(s, mark, i) by {
        NoMarkInside(raw, b, tail, i);
      }
      FirstEndClear(raw, b, tail, i + 1);
    }
  }

  lemma AtByte(s: Bytes, p: Bytes, i: nat, k: nat)
    requires k < |p|
    ensures At(s, p, i) ==> s[i + k] == p[k]
  {
    if At(s, p, i) {
      assert s[i + k] == s[i..i + |p|][k];
    }
  }

  lemma AtTail(raw: Bytes, rest: Bytes, a: Bytes, p: Bytes, i: nat)
    requires i + |a + p| <= |raw|
    ensures At(raw + rest, a + p, i) ==> At(raw, p, i + |a|)
  {
    var s := raw + rest;
    if At(s, a + p, i) {
      assert raw[i + |a|..i + |a| + |p|] == s[i..i + |a + p|][|a|..];
    }
  }

  lemma NoMarkInside(raw: Bytes, b: Bytes, tail: Bytes, i: nat)
    requires Boundary(b) && Clear(raw, b) && i < |raw|
    ensures !At(raw + (CRLF + Mark(b) + tail), CRLF + Mark(b), i)
  {
    var rest := CRLF + Mark(b) + tail;
    var mark := CRLF + Mark(b);
    if i + |mark| <= |raw| {
      AtTail(raw, rest, CRLF, Mark(b), i);
    } else {
      AtByte(raw + rest, mark, i, |raw| - i);
      assert (raw + rest)[|raw|] == '\r';
      assert mark[|raw| - i] != '\r';
    }
  }

  /** The body of a part whose text is clear is read up to the boundary. */
  lemma BodyBefore(raw: Bytes, b: Bytes, tail: Bytes)
    requires Boundary(b) && Clear(raw, b)
    requires EndsAt(CRLF + Mark(b) + tail, |b| + 4)
    ensures BodyEnd(raw + (CRLF + Mark(b) + tail), b, CRLF) == Some(|raw|)
  {
    var s := raw + (CRLF + Mark(b) + tail);
    var rest := CRLF + Mark(b) + tail;
    assert |b| + 4 < |rest| ==> s[|raw| + |b| + 4] == rest[|b| + 4];
    assert |b| + 5 < |rest| ==> s[|raw| + |b| + 5] == rest[|b| + 5];
    FirstEndClear(raw, b, tail, 0);
    assert !(Mark(b) <= s) by {
      NotAtStart(raw, b, tail);
    }
  }

  lemma NotAtStart(raw: Bytes, b: Bytes, tail: Bytes)
    requires Boundary(b) && Clear(raw, b)
    ensures !(Mark(b) <= raw + (CRLF + Mark(b) + tail))
  {
    var rest := CRLF + Mark(b) + tail;
    var s := raw + rest;
    assert Mark(b) <= s ==> At(s, Mark(b), 0);
    if |Mark(b)| <= |raw| {
      assert [] + Mark(b) == Mark(b);
      AtTail(raw, rest, [], Mark(b), 0);
    } else {
      AtByte(s, Mark(b), 0, |raw|);
      assert s[|raw|] == '\r';
      assert Mark(b)[|raw|] != '\r';
    }
  }

  /** A part with a clear body is read back from behind its delimiter line. */
  lemma ReadWrittenPart(p: RawPart, b: Bytes, tail: Bytes)
    requires WritablePart(p) && Boundary(b) && Clear(p.body, b)
    requires EndsAt(CRLF + Mark(b) + tail, |b| + 4)
    ensures ReadPart(PartText(p) + (CRLF + Mark(b) + tail), b, CRLF) ==
            Next(RawPart(TrimmedAll(p.fields), p.body), Reader(CRLF + Mark(b) + tail, CRLF, true))
  {
    var rest := p.body + (CRLF + Mark(b) + tail);
    Associates(FieldsText(p.fields) + CRLF, p.body, CRLF + Mark(b) + tail);
    ReadWritten(p.fields, rest, true);
    BodyBefore(p.body, b, tail);
    assert rest[..|p.body|] == p.body && rest[|p.body|..] == CRLF + Mark(b) + tail;
  }

  /** A part with an empty body right before a boundary. */
  lemma ReadEmptyPart(fields: seq<Field>, b: Bytes, tail: Bytes)
    requires (forall i :: 0 <= i < |fields| ==> Writable(fields[i], true)) && Boundary(b)
    requires EndsAt(Mark(b) + tail, |b| + 2)
    ensures ReadPart(FieldsText(fields) + CRLF + (Mark(b) + tail), b, CRLF) ==
            Next(RawPart(TrimmedAll(fields), []), Reader(Mark(b) + tail, CRLF, true))
  {
    ReadWritten(fields, Mark(b) + tail, true);
    assert Mark(b) <= Mark(b) + tail;
  }
}
