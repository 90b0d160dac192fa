/** The mail parser (pkg/mime): headers, and the recursive flattening of the MIME tree. */
module MimeParser {
  import opened Wrappers
  import opened Text
  import opened MimeText
  import opened MimeHeaders
  import opened MediaTypes
  import opened Multipart
  import opened MimeTypes
  import Base64

  /**
    The readers of the standard library: media types, multipart bodies, encoded words of headers, quoted-printable text,
    addresses, lists of them and dates.
   */
  datatype Library = Library(mediaType: Bytes -> Parsed, nextPart: (Reader, Bytes) -> Step,
                             words: Bytes -> Bytes, quotedPrintable: Bytes -> Option<Bytes>,
                             address: Bytes -> Option<EmailAddress>, addresses: Bytes -> Option<seq<EmailAddress>>,
                             date: Bytes -> Option<int>)
  {
    /** A part is shorter than what is left to read, and decoded text is never longer than its encoding. */
    ghost predicate Shrinks()
    {
      && (forall r, b :: nextPart(r, b).Next? ==> |nextPart(r, b).part.body| + |nextPart(r, b).reader.rest| < |r.rest|)
      && (forall s :: quotedPrintable(s).Some? ==> |quotedPrintable(s).value| <= |s|)
    }
  }

  const PLAIN: Bytes := "text/plain"
  const HTML: Bytes := "text/html"
  const MULTIPART: Bytes := "multipart/"

  const FILENAME: Bytes := "filename"
  const NAME: Bytes := "name"
  const BOUNDARY: Bytes := "boundary"
  const INLINE: Bytes := "inline"

  // ---- One part ----

  /** Both line ends removed. */
  function WithoutLineEnds(s: Bytes): (r: Bytes)
    ensures |r| <= |s|
  {
    if s == [] then []
    else if s[0] == '\n' then WithoutLineEnds(s[1..])
    else if s[0] == '\r' && |s| > 1 && s[1] == '\n' then WithoutLineEnds(s[2..])
    else [s[0]] + WithoutLineEnds(s[1..])
  }

  ghost function DecodeContent(body: Bytes, encoding: Bytes, lib: Library): (r: Option<Bytes>)
    requires lib.Shrinks()
    ensures r.Some? ==> |r.value| <= |body|
  {
    var cte := Trim(encoding, Space);
    if EqualFold(cte, QUOTED_PRINTABLE) then lib.quotedPrintable(body)
    else if EqualFold(cte, BASE64) then
      match Base64.Decode(WithoutLineEnds(body))
      case Success(data) => Some(data)
      case Failure(_) => None
    else Some(body)
  }

  /** decodePartContent */
  method DecodePartContent(body: Bytes, encoding: Bytes, lib: Library) returns (data: Option<Bytes>)
    requires lib.Shrinks()
    ensures data == DecodeContent(body, encoding, lib)
  {
    var cte := Trim(encoding, Space);
    if EqualFold(cte, QUOTED_PRINTABLE) {
      data := lib.quotedPrintable(body);
    } else if EqualFold(cte, BASE64) {
      var decoded := Base64.Decode(WithoutLineEnds(body));
      data := if decoded.Success? then Some(decoded.value) else None;
    } else {
      data := Some(body);
    }
  }

  /** Line ends, of either form, between pieces that have no line-end characters are all that is taken away. */
  lemma {:induction false} LineEndsGone(piece: Bytes, end: Bytes, rest: Bytes)
    requires '\n' !in piece && '\r' !in piece && (end == ['\n'] || end == ['\r', '\n'])
    ensures WithoutLineEnds(piece + end + rest) == piece + WithoutLineEnds(rest)
  {
    if piece == [] {
      assert piece + end + rest == end + rest;
      assert (end + rest)[|end|..] == rest;
    } else {
      assert (piece + end + rest)[1..] == piece[1..] + end + rest;
      LineEndsGone(piece[1..], end, rest);
    }
  }

  /** What a part says about itself, before its content. */
  datatype Labels = Labels(media: MediaType, filename: Bytes, contentId: Bytes, inline: bool, encoding: Bytes)

  ghost function LabelsOf(fields: seq<Field>, lib: Library): Labels
  {
    var media := lib.mediaType(Get(fields, CONTENT_TYPE)).media;
    var disposition := lib.mediaType(Get(fields, CONTENT_DISPOSITION)).media;
    var contentId := Trim(Get(fields, CONTENT_ID), Bracket);
    var given := ParamOf(disposition, FILENAME);
    var filename := lib.words(if given == [] then ParamOf(media, NAME) else given);
    Labels(media, filename, contentId, disposition.name == INLINE || contentId != [],
           Get(fields, CONTENT_TRANSFER_ENCODING))
  }

  predicate IsText(p: Part)
  {
    p.contentType == PLAIN && p.filename == [] && !p.isInline
  }

  predicate IsHtml(p: Part)
  {
    p.contentType == HTML && p.filename == [] && !p.isInline
  }

  // ---- The MIME tree ----

  datatype Tree = Leaf(leaf: Part) | Branch(children: seq<Tree>)

  predicate IsMultipart(m: MediaType)
  {
    MULTIPART <= m.name
  }

  /** The tree of a part, or None where the parser gives up. */
  ghost function TreeOf(p: RawPart, lib: Library): Option<Tree>
    requires lib.Shrinks()
    decreases |p.body|, 1
  {
    var labels := LabelsOf(p.fields, lib);
    match DecodeContent(p.body, labels.encoding, lib)
    case None => None
    case Some(data) =>
      if IsMultipart(labels.media) then
        match TreesFrom(NewReader(data), ParamOf(labels.media, BOUNDARY), lib)
        case None => None
        case Some(children) => Some(Branch(children))
      else Some(Leaf(Part(labels.media.name, labels.filename, labels.contentId, labels.inline, data)))
  }

  ghost function TreesFrom(r: Reader, b: Bytes, lib: Library): Option<seq<Tree>>
    requires lib.Shrinks()
    decreases |r.rest|, 0
  {
    match lib.nextPart(r, b)
    case End => Some([])
    case Broken => None
    case Next(part, reader) =>
      match (TreeOf(part, lib), TreesFrom(reader, b, lib))
      case (Some(t), Some(ts)) => Some([t] + ts)
      case (_, _) => None
  }

  /** The leaves from left to right. */
  ghost function Leaves(t: Tree): seq<Part>
    decreases t
  {
    match t
    case Leaf(p) => [p]
    case Branch(children) => AllLeaves(children)
  }

  ghost function AllLeaves(ts: seq<Tree>): seq<Part>
    decreases ts
  {
    if ts == [] then [] else Leaves(ts[0]) + AllLeaves(ts[1..])
  }

  lemma {:induction false} AllLeavesConcat(a: seq<Tree>, b: seq<Tree>)
    ensures AllLeaves(a + b) == AllLeaves(a) + AllLeaves(b)
  {
    if a == [] {
      assert a + b == b;
    } else {
      AllLeavesConcat(a[1..], b);
      assert (a + b)[1..] == a[1..] + b;
      Associates(Leaves(a[0]), AllLeaves(a[1..]), AllLeaves(b));
    }
  }

  lemma LeavesOfOneMore(done: seq<Tree>, t: Tree)
    ensures AllLeaves(done + [t]) == AllLeaves(done) + Leaves(t)
  {
    AllLeavesConcat(done, [t]);
    assert AllLeaves([t]) == Leaves(t) + AllLeaves([t][1..]);
  }

  // ---- What the leaves amount to ----

  ghost function LastText(leaves: seq<Part>, before: Bytes): Bytes
  {
    if leaves == [] then before
    else if IsText(leaves[|leaves| - 1]) then leaves[|leaves| - 1].data
    else LastText(leaves[..|leaves| - 1], before)
  }

  ghost function LastHtml(leaves: seq<Part>, before: Bytes): Bytes
  {
    if leaves == [] then before
    else if IsHtml(leaves[|leaves| - 1]) then leaves[|leaves| - 1].data
    else LastHtml(leaves[..|leaves| - 1], before)
  }

  /** The leaves that are no body, in order. */
  ghost function Others(leaves: seq<Part>): seq<Part>
  {
    if leaves == [] then []
    else
      var last := leaves[|leaves| - 1];
      if IsText(last) || IsHtml(last) then Others(leaves[..|leaves| - 1]) else Others(leaves[..|leaves| - 1]) + [last]
  }

  lemma {:induction false} LeavesConcat(a: seq<Part>, b: seq<Part>, before: Bytes)
    ensures LastText(a + b, before) == LastText(b, LastText(a, before))
    ensures LastHtml(a + b, before) == LastHtml(b, LastHtml(a, before))
    ensures Others(a + b) == Others(a) + Others(b)
  {
    if b == [] {
      assert a + b == a;
    } else {
      LeavesConcat(a, b[..|b| - 1], before);
      assert (a + b)[..|a + b| - 1] == a + b[..|b| - 1] && (a + b)[|a + b| - 1] == b[|b| - 1];
    }
  }

  /** Taking in the leaves of one more tree. */
  lemma TakenOneMore(done: seq<Tree>, t: Tree, text: Bytes, html: Bytes)
    ensures LastText(AllLeaves(done + [t]), text) == LastText(Leaves(t), LastText(AllLeaves(done), text))
    ensures LastHtml(AllLeaves(done + [t]), html) == LastHtml(Leaves(t), LastHtml(AllLeaves(done), html))
    ensures Others(AllLeaves(done + [t])) == Others(AllLeaves(done)) + Others(Leaves(t))
  {
    LeavesOfOneMore(done, t);
    LeavesConcat(AllLeaves(done), Leaves(t), text);
    LeavesConcat(AllLeaves(done), Leaves(t), html);
  }

  /** The text body is the data of the last such leaf. */
  lemma {:induction false} LastTextIs(leaves: seq<Part>, before: Bytes, i: nat)
    requires i < |leaves| && IsText(leaves[i]) && forall j :: i < j < |leaves| ==> !IsText(leaves[j])
    ensures LastText(leaves, before) == leaves[i].data
  {
    if i < |leaves| - 1 {
      LastTextIs(leaves[..|leaves| - 1], before, i);
    }
  }

  /** Without such a leaf it stays what it was. */
  lemma {:induction false} NoTextKeeps(leaves: seq<Part>, before: Bytes)
    requires forall i :: 0 <= i < |leaves| ==> !IsText(leaves[i])
    ensures LastText(leaves, before) == before
  {
    if leaves != [] {
      NoTextKeeps(leaves[..|leaves| - 1], before);
    }
  }

  /** The HTML body is the data of the last such leaf. */
  lemma {:induction false} LastHtmlIs(leaves: seq<Part>, before: Bytes, i: nat)
    requires i < |leaves| && IsHtml(leaves[i]) && forall j :: i < j < |leaves| ==> !IsHtml(leaves[j])
    ensures LastHtml(leaves, before) == leaves[i].data
  {
    if i < |leaves| - 1 {
      LastHtmlIs(leaves[..|leaves| - 1], before, i);
    }
  }

  /** Without such a leaf it stays what it was. */
  lemma {:induction false} NoHtmlKeeps(leaves: seq<Part>, before: Bytes)
    requires forall i :: 0 <= i < |leaves| ==> !IsHtml(leaves[i])
    ensures LastHtml(leaves, before) == before
  {
    if leaves != [] {
      NoHtmlKeeps(leaves[..|leaves| - 1], before);
    }
  }

  ghost predicate Increasing(places: seq<nat>, bound: nat)
  {
    && (forall i, j :: 0 <= i < j < |places| ==> places[i] < places[j])
    && (forall i :: 0 <= i < |places| ==> places[i] < bound)
  }

  predicate IsOther(p: Part)
  {
    !IsText(p) && !IsHtml(p)
  }

  ghost predicate Stands(places: seq<nat>, k: nat)
  {
    exists i :: 0 <= i < |places| && places[i] == k
  }

  /** others are the leaves at the given places, and these are the places of the leaves that are no body. */
  ghost predicate Placed(others: seq<Part>, leaves: seq<Part>, places: seq<nat>)
  {
    && |places| == |others| && Increasing(places, |leaves|)
    && (forall i :: 0 <= i < |places| ==> others[i] == leaves[places[i]])
    && (forall k: nat {:trigger Stands(places, k)} :: k < |leaves| ==> (Stands(places, k) <==> IsOther(leaves[k])))
  }

  /** Parts lists each leaf that is no body once, in document order: there are increasing places they stand at. */
  lemma {:induction false} OthersInOrder(leaves: seq<Part>) returns (places: seq<nat>)
    ensures Placed(Others(leaves), leaves, places)
  {
    places := [];
    if leaves != [] {
      var n := |leaves| - 1;
      var front := OthersInOrder(leaves[..n]);
      assert leaves == leaves[..n] + [leaves[n]];
      if IsOther(leaves[n]) {
        PlacedListed(Others(leaves[..n]), leaves[..n], front, leaves[n]);
        places := front + [n];
      } else {
        PlacedSkipped(Others(leaves[..n]), leaves[..n], front, leaves[n]);
        places := front;
      }
    }
  }

  lemma StandsOneMore(places: seq<nat>, n: nat, k: nat)
    ensures Stands(places + [n], k) <==> Stands(places, k) || k == n
  {
    var more := places + [n];
    if Stands(places, k) {
      var i :| 0 <= i < |places| && places[i] == k;
      assert more[i] == k;
    }
    assert more[|places|] == n;
  }

  lemma PlacedListed(others: seq<Part>, leaves: seq<Part>, places: seq<nat>, p: Part)
    requires Placed(others, leaves, places) && IsOther(p)
    ensures Placed(others + [p], leaves + [p], places + [|leaves|])
  {
    var n, all := |leaves|, leaves + [p];
    forall k: nat | k < |all|
      ensures Stands(places + [n], k) <==> IsOther(all[k])
    {
      StandsOneMore(places, n, k);
      if k < n {
        assert Stands(places, k) <==> IsOther(leaves[k]);
      }
    }
  }

  lemma PlacedSkipped(others: seq<Part>, leaves: seq<Part>, places: seq<nat>, p: Part)
    requires Placed(others, leaves, places) && !IsOther(p)
    ensures Placed(others, leaves + [p], places)
  {
    var all := leaves + [p];
    forall k: nat | k < |all|
      ensures Stands(places, k) <==> IsOther(all[k])
    {
      if k < |leaves| {
        assert Stands(places, k) <==> IsOther(leaves[k]);
      }
    }
  }

  lemma OneLeaf(p: Part, before: Bytes)
    ensures LastText([p], before) == if IsText(p) then p.data else before
    ensures LastHtml([p], before) == if IsHtml(p) then p.data else before
    ensures Others([p]) == if IsOther(p) then [p] else []
  {
    assert [p][..0] == [];
  }

  /** The three kinds of names exclude each other. */
  lemma NamesApart(name: Bytes)
    ensures name == PLAIN || name == HTML ==> !(MULTIPART <= name)
    ensures PLAIN != HTML
  {
    assert MULTIPART[0] == 'm' && PLAIN[0] == 't' && HTML[0] == 't';
    assert PLAIN[5] == 'p' && HTML[5] == 'h';
  }

  /** whole is what is done, then what the rest gives. */
  ghost predicate Continues(whole: Option<seq<Tree>>, done: seq<Tree>, rest: Option<seq<Tree>>)
  {
    whole == match rest case None => None case Some(ts) => Some(done + ts)
  }

  lemma Start(r: Reader, b: Bytes, lib: Library)
    requires lib.Shrinks()
    ensures Continues(TreesFrom(r, b, lib), [], TreesFrom(r, b, lib))
  {
    var trees := TreesFrom(r, b, lib);
    if trees.Some? {
      assert [] + trees.value == trees.value;
    }
  }

  lemma TreesStep(r: Reader, b: Bytes, lib: Library, whole: Option<seq<Tree>>, done: seq<Tree>)
    requires lib.Shrinks() && Continues(whole, done, TreesFrom(r, b, lib)) && lib.nextPart(r, b).Next?
    ensures
      var step := lib.nextPart(r, b);
      match TreeOf(step.part, lib)
      case None => whole.None?
      case Some(t) => Continues(whole, done + [t], TreesFrom(step.reader, b, lib))
  {
    var step := lib.nextPart(r, b);
    var later := TreesFrom(step.reader, b, lib);
    if TreeOf(step.part, lib).Some? && later.Some? {
      var t := TreeOf(step.part, lib).value;
      assert done + ([t] + later.value) == done + [t] + later.value;
    }
  }

  // ---- The parser ----

  /** The leaves of a mail's body. */
  ghost function BodyLeaves(contentType: Bytes, body: Bytes, lib: Library): Option<seq<Part>>
    requires lib.Shrinks()
  {
    var parsed := lib.mediaType(contentType);
    var name := parsed.media.name;
    if !parsed.ok then Some([Part(PLAIN, [], [], false, body)])
    else if MULTIPART <= name then
      var b := ParamOf(parsed.media, BOUNDARY);
      if b == [] then None
      else
        match TreesFrom(NewReader(body), b, lib)
        case None => None
        case Some(ts) => Some(AllLeaves(ts))
    else Some([Part(name, [], [], false, body)])
  }

  ghost function IdsOf(references: Bytes): seq<Bytes>
  {
    TrimIds(Fields(references))
  }

  ghost function TrimIds(words: seq<Bytes>): (r: seq<Bytes>)
    ensures |r| == |words|
    ensures forall i :: 0 <= i < |words| ==> r[i] == Trim(words[i], Bracket)
  {
    if words == [] then [] else TrimIds(words[..|words| - 1]) + [Trim(words[|words| - 1], Bracket)]
  }

  /** The mail's header fields and body. A header that the input ends in has no body. */
  function ReadMessage(raw: Bytes): Option<(seq<Field>, Bytes)>
  {
    match ReadBlock(raw, false)
    case Malformed => None
    case Ended(fields) => if fields == [] then None else Some((fields, []))
    case Done(fields, body) => Some((fields, body))
  }

  /** What identifies a mail. */
  datatype Ids = Ids(messageId: Bytes, inReplyTo: Bytes, references: seq<Bytes>, subject: Bytes, date: Option<int>)

  /** Whom it goes between. */
  datatype People = People(from: EmailAddress, replyTo: Bytes, to: seq<EmailAddress>, cc: seq<EmailAddress>)

  const NO_ADDRESS := EmailAddress([], [])

  /** What the library reads in a list of addresses; nothing when it reads none. */
  ghost function AddressList(s: Bytes, lib: Library): seq<EmailAddress>
  {
    if s == [] || lib.addresses(s).None? then [] else lib.addresses(s).value
  }

  ghost function DateOf(s: Bytes, lib: Library): Option<int>
  {
    if s == [] then None else lib.date(s)
  }

  ghost function FromOf(s: Bytes, lib: Library): EmailAddress
  {
    if lib.address(s).Some? then lib.address(s).value else NO_ADDRESS
  }

  ghost function ReplyToOf(s: Bytes, lib: Library): Bytes
  {
    if s == [] || lib.address(s).None? then [] else lib.address(s).value.email
  }

  /** The values of the fields that the parser asks for by name. */
  datatype HeaderTexts = HeaderTexts(
    messageId: Bytes, inReplyTo: Bytes, references: Bytes, subject: Bytes, date: Bytes, from: Bytes, replyTo: Bytes,
    to: Bytes, cc: Bytes)

  function TextsOf(fields: seq<Field>): HeaderTexts
  {
    HeaderTexts(Get(fields, MESSAGE_ID), Get(fields, IN_REPLY_TO), Get(fields, REFERENCES), Get(fields, SUBJECT),
                Get(fields, DATE), Get(fields, FROM), Get(fields, REPLY_TO), Get(fields, TO), Get(fields, CC))
  }

  ghost function IdsFrom(texts: HeaderTexts, lib: Library): Ids
  {
    Ids(Trim(texts.messageId, Bracket), Trim(texts.inReplyTo, Bracket), IdsOf(texts.references),
        lib.words(texts.subject), DateOf(texts.date, lib))
  }

  ghost function PeopleFrom(texts: HeaderTexts, lib: Library): People
  {
    People(FromOf(texts.from, lib), ReplyToOf(texts.replyTo, lib), AddressList(texts.to, lib),
           AddressList(texts.cc, lib))
  }

  method ParseAddressList(s: Bytes, lib: Library) returns (addrs: seq<EmailAddress>)
    ensures addrs == AddressList(s, lib)
  {
    if s == [] {
      return [];
    }
    var read := lib.addresses(s);
    if read.None? {
      return [];
    }
    addrs := read.value;
  }

  class ParsedEmail {
    var headers: seq<Field>
    var messageId: Bytes
    var inReplyTo: Bytes
    var references: seq<Bytes>
    var from: EmailAddress
    var to: seq<EmailAddress>
    var cc: seq<EmailAddress>
    var replyTo: Bytes
    var subject: Bytes
    var date: Option<int>
    var bodyText: Bytes
    var bodyHtml: Bytes
    var parts: seq<Part>

    constructor ()
      ensures references == [] && date == None && from == NO_ADDRESS && replyTo == []
      ensures bodyText == bodyHtml == [] && parts == []
    {
      messageId, inReplyTo, references, subject, date, from := [], [], [], [], None, NO_ADDRESS;
      replyTo, to, cc, headers := [], [], [], [];
      bodyText, bodyHtml, parts := [], [], [];
    }

    /** The fields that identify the mail are these. */
    ghost predicate IdentifiedBy(ids: Ids)
      reads this
    {
      && messageId == ids.messageId && inReplyTo == ids.inReplyTo && references == ids.references
      && subject == ids.subject && date == ids.date
    }

    /** The mail goes between these. */
    ghost predicate Between(people: People)
      reads this
    {
      from == people.from && replyTo == people.replyTo && to == people.to && cc == people.cc
    }

    /** The bodies and parts are those of before with these leaves taken in. */
    twostate predicate TookIn(leaves: seq<Part>)
      reads this
    {
      && bodyText == LastText(leaves, old(bodyText)) && bodyHtml == LastHtml(leaves, old(bodyHtml))
      && parts == old(parts) + Others(leaves)
    }

    /** parsePart: takes in the leaves of the part's tree, or fails when there is none. */
    method ParsePart(part: RawPart, lib: Library) returns (ok: bool)
      requires lib.Shrinks()
      modifies this`bodyText, this`bodyHtml, this`parts
      ensures ok <==> TreeOf(part, lib).Some?
      ensures ok ==> TookIn(Leaves(TreeOf(part, lib).value))
      decreases |part.body|, 1
    {
      var media := lib.mediaType(Get(part.fields, CONTENT_TYPE)).media;
      var disposition := lib.mediaType(Get(part.fields, CONTENT_DISPOSITION)).media;
      var contentId := Trim(Get(part.fields, CONTENT_ID), Bracket);
      var filename := ParamOf(disposition, FILENAME);
      if filename == [] {
        filename := ParamOf(media, NAME);
      }
      filename := lib.words(filename);
      var isInline := disposition.name == INLINE || contentId != [];
      var data := DecodePartContent(part.body, Get(part.fields, CONTENT_TRANSFER_ENCODING), lib);
      if data.None? {
        return false;
      }
      NamesApart(media.name);
      if MULTIPART <= media.name {
        ok := ParseParts(NewReader(data.value), ParamOf(media, BOUNDARY), lib);
      } else {
        TakeLeaf(Part(media.name, filename, contentId, isInline, data.value));
        ok := true;
      }
    }

    /** The other branches of parsePart: a body replaces the one before it, anything else is listed. */
    method TakeLeaf(p: Part)
      modifies this`bodyText, this`bodyHtml, this`parts
      ensures TookIn([p])
    {
      NamesApart(p.contentType);
      OneLeaf(p, bodyText);
      OneLeaf(p, bodyHtml);
      if p.contentType == PLAIN && p.filename == [] && !p.isInline {
        bodyText := p.data;
      } else if p.contentType == HTML && p.filename == [] && !p.isInline {
        bodyHtml := p.data;
      } else {
        parts := parts + [p];
      }
    }

    /** The loop over NextPart. */
    method ParseParts(reader: Reader, b: Bytes, lib: Library) returns (ok: bool)
      requires lib.Shrinks()
      modifies this`bodyText, this`bodyHtml, this`parts
      ensures ok <==> TreesFrom(reader, b, lib).Some?
      ensures ok ==> TookIn(AllLeaves(TreesFrom(reader, b, lib).value))
      decreases |reader.rest|, 0
    {
      var r := reader;
      ghost var done: seq<Tree> := [];
      Start(reader, b, lib);
      while true
        invariant |r.rest| <= |reader.rest|
        invariant TookIn(AllLeaves(done))
        invariant Continues(TreesFrom(reader, b, lib), done, TreesFrom(r, b, lib))
        decreases |r.rest|
      {
        match lib.nextPart(r, b) {
          case End =>
            assert done + [] == done;
            return true;
          case Broken =>
            return false;
          case Next(part, next) =>
            TreesStep(r, b, lib, TreesFrom(reader, b, lib), done);
            var taken := ParsePart(part, lib);
            if !taken {
              return false;
            }
            ghost var t := TreeOf(part, lib).value;
            TakenOneMore(done, t, old(bodyText), old(bodyHtml));
            Associates(old(parts), Others(AllLeaves(done)), Others(Leaves(t)));
            done := done + [t];
            r := next;
        }
      }
    }

    method ParseBody(body: Bytes, contentType: Bytes, lib: Library) returns (ok: bool)
      requires lib.Shrinks()
      modifies this`bodyText, this`bodyHtml, this`parts
      ensures ok <==> BodyLeaves(contentType, body, lib).Some?
      ensures ok ==> TookIn(BodyLeaves(contentType, body, lib).value)
    {
      var parsed := lib.mediaType(contentType);
      if !parsed.ok {
        OneLeaf(Part(PLAIN, [], [], false, body), bodyText);
        NamesApart(PLAIN);
        bodyText := body;
        return true;
      }
      NamesApart(parsed.media.name);
      if MULTIPART <= parsed.media.name {
        var b := ParamOf(parsed.media, BOUNDARY);
        if b == [] {
          return false;
        }
        ok := ParseParts(NewReader(body), b, lib);
      } else {
        TakeLeaf(Part(parsed.media.name, [], [], false, body));
        ok := true;
      }
    }

    /** The fields that identify a mail. */
    method TakeIds(texts: HeaderTexts, lib: Library)
      requires references == [] && date == None
      modifies this`messageId, this`inReplyTo, this`subject, this`references, this`date
      ensures messageId == Trim(texts.messageId, Bracket) && inReplyTo == Trim(texts.inReplyTo, Bracket)
      ensures subject == lib.words(texts.subject) && references == IdsOf(texts.references)
      ensures date == DateOf(texts.date, lib)
    {
      messageId := Trim(texts.messageId, Bracket);
      inReplyTo := Trim(texts.inReplyTo, Bracket);
      subject := lib.words(texts.subject);
      TakeReferences(texts.references);
      if texts.date != [] {
        date := lib.date(texts.date);
      }
    }

    /** The addresses of a mail. What does not parse leaves its field as it was. */
    method TakePeople(texts: HeaderTexts, lib: Library)
      requires from == NO_ADDRESS && replyTo == []
      modifies this`from, this`replyTo, this`to, this`cc
      ensures to == AddressList(texts.to, lib) && cc == AddressList(texts.cc, lib)
      ensures from == FromOf(texts.from, lib) && replyTo == ReplyToOf(texts.replyTo, lib)
    {
      var sender := lib.address(texts.from);
      if sender.Some? {
        from := sender.value;
      }
      if texts.replyTo != [] {
        var a := lib.address(texts.replyTo);
        if a.Some? {
          replyTo := a.value.email;
        }
      }
      to := ParseAddressList(texts.to, lib);
      cc := ParseAddressList(texts.cc, lib);
    }

    /** The ids between the spaces of a References field, without their brackets. */
    method TakeReferences(refs: Bytes)
      requires references == []
      modifies this`references
      ensures references == IdsOf(refs)
    {
      if refs == [] {
        return;
      }
      var words := Fields(refs);
      for i := 0 to |words|
        invariant references == TrimIds(words[..i])
      {
        assert words[..i + 1][..i] == words[..i];
        references := references + [Trim(words[i], Bracket)];
      }
      assert words[..|words|] == words;
    }
  }

  /** What a mail says: its header fields, what they mean, and the leaves of its body. */
  datatype Contents = Contents(headers: seq<Field>, ids: Ids, people: People, leaves: seq<Part>)

  ghost function ContentsOf(fields: seq<Field>, body: Bytes, lib: Library): Option<Contents>
    requires lib.Shrinks()
  {
    match BodyLeaves(Get(fields, CONTENT_TYPE), body, lib)
    case None => None
    case Some(leaves) => Some(Contents(fields, IdsFrom(TextsOf(fields), lib), PeopleFrom(TextsOf(fields), lib), leaves))
  }

  ghost function ParseOutcome(raw: Bytes, lib: Library): Option<Contents>
    requires lib.Shrinks()
  {
    match ReadMessage(raw)
    case None => None
    case Some((fields, body)) => ContentsOf(fields, body, lib)
  }

  /** The parsed mail says what the contents are: the last bodies, and the other parts in order. */
  ghost predicate Says(m: ParsedEmail, said: Contents)
    reads m
  {
    && m.headers == said.headers && m.IdentifiedBy(said.ids) && m.Between(said.people)
    && m.bodyText == LastText(said.leaves, []) && m.bodyHtml == LastHtml(said.leaves, [])
    && m.parts == Others(said.leaves)
  }

  method ParseHeader(fields: seq<Field>, texts: HeaderTexts, lib: Library) returns (parsed: ParsedEmail)
    ensures fresh(parsed) && parsed.headers == fields
    ensures parsed.IdentifiedBy(IdsFrom(texts, lib)) && parsed.Between(PeopleFrom(texts, lib))
    ensures parsed.bodyText == parsed.bodyHtml == [] && parsed.parts == []
  {
    parsed := new ParsedEmail();
    parsed.headers := fields;
    parsed.TakeIds(texts, lib);
    parsed.TakePeople(texts, lib);
  }

  /** A mail whose header has been read. */
  method ParseFields(fields: seq<Field>, texts: HeaderTexts, body: Bytes, contentType: Bytes, lib: Library)
    returns (mail: Option<ParsedEmail>)
    requires lib.Shrinks()
    ensures mail.Some? <==> BodyLeaves(contentType, body, lib).Some?
    ensures mail.Some? ==>
              && fresh(mail.value)
              && Says(mail.value,
                      Contents(fields, IdsFrom(texts, lib), PeopleFrom(texts, lib),
                               BodyLeaves(contentType, body, lib).value))
  {
    var parsed := ParseHeader(fields, texts, lib);
    ghost var ids, people := IdsFrom(texts, lib), PeopleFrom(texts, lib);
    var ok := parsed.ParseBody(body, contentType, lib);
    if !ok {
      return None;
    }
    ghost var leaves := BodyLeaves(contentType, body, lib).value;
    assert [] + Others(leaves) == Others(leaves);
    assert parsed.IdentifiedBy(ids) && parsed.Between(people);
    mail := Some(parsed);
  }

  method Parse(raw: Bytes, lib: Library) returns (mail: Option<ParsedEmail>)
    requires lib.Shrinks()
    ensures mail.Some? <==> ParseOutcome(raw, lib).Some?
    ensures mail.Some? ==> fresh(mail.value) && Says(mail.value, ParseOutcome(raw, lib).value)
  {
    var msg := ReadMessage(raw);
    if msg.None? {
      return None;
    }
    var (fields, body) := msg.value;
    mail := ParseFields(fields, TextsOf(fields), body, Get(fields, CONTENT_TYPE), lib);
  }
}
