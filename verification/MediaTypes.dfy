/**
  Content types and dispositions with their parameters (section 5.1 of RFC 2045), as mime.ParseMediaType reads them.
 */
module MediaTypes {
  import opened Wrappers
  import opened Text
  import opened MimeText

  /** What ParseMediaType returns besides its error. */
  datatype MediaType = MediaType(name: Bytes, params: map<Bytes, Bytes>)

  datatype Parsed = Parsed(media: MediaType, ok: bool)

  const NOTHING := MediaType([], map[])

  predicate TSpecial(c: Byte)
  {
    c in "()<>@,;:\\\"/[]?="
  }

  predicate TokenByte(c: Byte)
  {
    32 < c as int < 127 && !TSpecial(c)
  }

  function TokenLength(s: Bytes): (n: nat)
    ensures n <= |s|
  {
    if s == [] || !TokenByte(s[0]) then 0 else 1 + TokenLength(s[1..])
  }

  predicate Token(s: Bytes)
  {
    s != [] && forall i :: 0 <= i < |s| ==> TokenByte(s[i])
  }

  /** Small letters and dashes. */
  predicate Letters(s: Bytes)
  {
    s != [] && forall i :: 0 <= i < |s| ==> 'a' <= s[i] <= 'z' || s[i] == '-'
  }

  lemma LettersToken(s: Bytes)
    requires Letters(s)
    ensures Token(s) && Lower(s) == s
  {
    LowerFixed(s);
    forall i | 0 <= i < |s|
      ensures TokenByte(s[i])
    {
      assert !TSpecial(s[i]);
    }
  }

  /** A token, or two with a slash between them. */
  predicate ValidName(s: Bytes)
  {
    var n := TokenLength(s);
    n > 0 && (n == |s| || (s[n] == '/' && n + 1 < |s| && TokenLength(s[n + 1..]) == |s| - n - 1))
  }

  /** The text of a quoted string from behind its first quote, and what follows it. */
  function Quoted(s: Bytes): (r: Option<(Bytes, Bytes)>)
    ensures r.Some? ==> |r.value.1| < |s|
    decreases |s|
  {
    if s == [] then None
    else if s[0] == '"' then Some(([], s[1..]))
    else if s[0] == '\\' && |s| > 1 && TSpecial(s[1]) then Ahead([s[1]], Quoted(s[2..]))
    else if s[0] == '\r' || s[0] == '\n' then None
    else Ahead([s[0]], Quoted(s[1..]))
  }

  function Ahead(w: Bytes, r: Option<(Bytes, Bytes)>): Option<(Bytes, Bytes)>
  {
    match r
    case None => None
    case Some(q) => Some((w + q.0, q.1))
  }

  /** A token or a quoted string, and what follows it. */
  function Value(s: Bytes): (r: Option<(Bytes, Bytes)>)
    ensures r.Some? ==> |r.value.1| < |s|
  {
    if s == [] then None
    else if s[0] == '"' then Quoted(s[1..])
    else
      var n := TokenLength(s);
      if n == 0 then None else Some((s[..n], s[n..]))
  }

  /** "key = value", and what follows it. */
  function KeyValue(t: Bytes): (r: Option<(Bytes, Bytes, Bytes)>)
    ensures r.Some? ==> |r.value.2| < |t|
  {
    var n := TokenLength(t);
    if n == 0 then None
    else
      var u := TrimLeft(t[n..], Space);
      if u == [] || u[0] != '=' then None
      else
        match Value(TrimLeft(u[1..], Space))
        case None => None
        case Some(v) => Some((Lower(t[..n]), v.0, v.1))
  }

  /** The same behind a semicolon. */
  function Parameter(s: Bytes): (r: Option<(Bytes, Bytes, Bytes)>)
    ensures r.Some? ==> |r.value.2| < |s|
  {
    if s == [] || s[0] != ';' then None else KeyValue(TrimLeft(s[1..], Space))
  }

  function Parameters(name: Bytes, s: Bytes, params: map<Bytes, Bytes>): Parsed
    decreases |s|
  {
    var t := TrimLeft(s, Space);
    if t == [] then Parsed(MediaType(name, params), true)
    else
      match Parameter(t)
      case None =>
        if Trim(t, Space) == ";" then Parsed(MediaType(name, params), true) else Parsed(MediaType(name, map[]), false)
      case Some(p) =>
        if p.0 in params && params[p.0] != p.1 then Parsed(NOTHING, false)
        else Parameters(name, p.2, params[p.0 := p.1])
  }

  function ParseMediaType(v: Bytes): Parsed
  {
    var (base, rest) := match Cut(v, ';') case None => (v, []) case Some(halves) => (halves.0, [';'] + halves.1);
    var name := Trim(Lower(base), Space);
    if ValidName(name) then Parameters(name, rest, map[]) else Parsed(NOTHING, false)
  }

  /** A missing parameter reads as nothing. */
  function ParamOf(m: MediaType, key: Bytes): Bytes
  {
    if key in m.params then m.params[key] else []
  }

  // ---- Reading what was written ----

  lemma {:induction false} TokenLengthOf(w: Bytes, rest: Bytes)
    requires forall i :: 0 <= i < |w| ==> TokenByte(w[i])
    requires rest == [] || !TokenByte(rest[0])
    ensures TokenLength(w + rest) == |w|
  {
    if w == [] {
      assert w + rest == rest;
    } else {
      assert (w + rest)[1..] == w[1..] + rest;
      TokenLengthOf(w[1..], rest);
    }
  }

  lemma {:induction false} TokenLengthTokens(s: Bytes)
    ensures forall i :: 0 <= i < TokenLength(s) ==> TokenByte(s[i])
  {
    if s != [] && TokenByte(s[0]) {
      TokenLengthTokens(s[1..]);
      assert forall i :: 0 < i < TokenLength(s) ==> s[i] == s[1..][i - 1];
    }
  }

  predicate SmallTokenByte(c: Byte)
  {
    TokenByte(c) && !('A' <= c <= 'Z')
  }

  /** A token without capitals, or two with the slash at n. */
  predicate PlainAt(s: Bytes, n: nat)
  {
    && 0 < n <= |s| && (forall i :: 0 <= i < |s| && i != n ==> SmallTokenByte(s[i]))
    && (n < |s| ==> s[n] == '/' && n + 1 < |s|)
  }

  /** A media type that is read as it is written. */
  ghost predicate PlainName(s: Bytes)
  {
    exists n: nat :: PlainAt(s, n)
  }

  lemma PlainIsValid(s: Bytes)
    requires PlainName(s)
    ensures ValidName(s) && Lower(s) == s
  {
    var n: nat :| PlainAt(s, n);
    assert s == s[..n] + s[n..];
    TokenLengthOf(s[..n], s[n..]);
    if n < |s| {
      assert s[n + 1..] == s[n + 1..] + [];
      TokenLengthOf(s[n + 1..], []);
    }
    LowerFixed(s);
  }

  lemma ValidNameBytes(s: Bytes)
    requires ValidName(s)
    ensures s != [] && forall i :: 0 <= i < |s| ==> s[i] == '/' || TokenByte(s[i])
    ensures ';' !in s && !Space(s[0]) && !Space(s[|s| - 1])
  {
    var n := TokenLength(s);
    TokenLengthTokens(s);
    if n < |s| {
      TokenLengthTokens(s[n + 1..]);
      assert forall i :: n < i < |s| ==> s[i] == s[n + 1..][i - n - 1];
    }
  }

  lemma LettersPlain(a: Bytes, b: Bytes)
    requires Letters(a) && Letters(b)
    ensures PlainName(a + ['/'] + b)
  {
    LettersToken(a);
    LettersToken(b);
    assert PlainAt(a + ['/'] + b, |a|);
  }

  lemma LettersWord(a: Bytes)
    requires Letters(a)
    ensures PlainName(a)
  {
    LettersToken(a);
    assert PlainAt(a, |a|);
  }

  /** A plain type on its own. */
  lemma ParsePlain(name: Bytes)
    requires PlainName(name)
    ensures ParseMediaType(name) == Parsed(MediaType(name, map[]), true)
  {
    PlainIsValid(name);
    ValidNameBytes(name);
    CutNowhere(name, ';');
  }

  /** A plain type with one parameter, as token or as quoted string. */
  lemma ParseWithParameter(name: Bytes, key: Bytes, text: Bytes, value: Bytes)
    requires PlainName(name) && Letters(key)
    requires Value(text) == Some((value, [])) && text != [] && !Space(text[0])
    ensures ParseMediaType(name + [';'] + ([' '] + key + ['='] + text)) ==
            Parsed(MediaType(name, map[key := value]), true)
  {
    var tail: Bytes := [' '] + key + ['='] + text;
    PlainIsValid(name);
    ValidNameBytes(name);
    CutAt(name, ';', tail);
    ReadParameter(key, text, value);
    assert Parameters(name, [], map[key := value]) == Parsed(MediaType(name, map[key := value]), true);
    assert map[][key := value] == map[key := value];
  }

  lemma ReadParameter(key: Bytes, text: Bytes, value: Bytes)
    requires Letters(key)
    requires Value(text) == Some((value, [])) && text != [] && !Space(text[0])
    ensures Parameter([';'] + ([' '] + key + ['='] + text)) == Some((key, value, []))
  {
    var t := key + (['='] + text);
    assert [' '] + key + ['='] + text == [' '] + t;
    assert ([';'] + ([' '] + t))[1..] == [' '] + t;
    assert ([' '] + t)[1..] == t;
    assert TrimLeft([' '] + t, Space) == TrimLeft(t, Space) == t;
    ReadKeyValue(key, text, value);
  }

  lemma ReadKeyValue(key: Bytes, text: Bytes, value: Bytes)
    requires Letters(key)
    requires Value(text) == Some((value, [])) && text != [] && !Space(text[0])
    ensures KeyValue(key + (['='] + text)) == Some((key, value, []))
  {
    var t := key + (['='] + text);
    LettersToken(key);
    TokenLengthOf(key, ['='] + text);
    assert t[..|key|] == key && t[|key|..] == ['='] + text;
    assert (['='] + text)[1..] == text;
  }

  /** A written parameter: its key, its value as it stands there, and what that is read as. */
  datatype Written = Written(key: Bytes, text: Bytes, value: Bytes)

  /** The text is read as the value, whatever follows behind a semicolon. */
  ghost predicate ReadsAs(w: Written)
  {
    && Letters(w.key) && w.text != [] && !Space(w.text[0])
    && forall rest: Bytes :: rest == [] || rest[0] == ';' ==> Value(w.text + rest) == Some((w.value, rest))
  }

  lemma TokensRead(key: Bytes, token: Bytes)
    requires Letters(key) && Token(token) && !Space(token[0])
    ensures ReadsAs(Written(key, token, token))
  {
    forall rest: Bytes | rest == [] || rest[0] == ';'
      ensures Value(token + rest) == Some((token, rest))
    {
      TokenLengthOf(token, rest);
      assert (token + rest)[..|token|] == token && (token + rest)[|token|..] == rest;
    }
  }

  function ParametersText(ws: seq<Written>): Bytes
  {
    if ws == [] then [] else [';', ' '] + ws[0].key + ['='] + ws[0].text + ParametersText(ws[1..])
  }

  ghost function Collected(ws: seq<Written>, params: map<Bytes, Bytes>): map<Bytes, Bytes>
  {
    if ws == [] then params else Collected(ws[1..], params[ws[0].key := ws[0].value])
  }

  lemma KeyValueAhead(w: Written, rest: Bytes)
    requires ReadsAs(w) && (rest == [] || rest[0] == ';')
    ensures KeyValue(w.key + (['='] + (w.text + rest))) == Some((w.key, w.value, rest))
  {
    var behind := ['='] + (w.text + rest);
    var t := w.key + behind;
    LettersToken(w.key);
    TokenLengthOf(w.key, behind);
    assert t[..|w.key|] == w.key && t[|w.key|..] == behind && behind[1..] == w.text + rest;
    assert (w.text + rest)[0] == w.text[0];
  }

  lemma Written4(key: Bytes, text: Bytes, rest: Bytes)
    ensures [';', ' '] + key + ['='] + text + rest == [';'] + ([' '] + (key + (['='] + (text + rest))))
  {
  }

  lemma BlankAhead(t: Bytes)
    requires t != [] && !Space(t[0])
    ensures TrimLeft([' '] + t, Space) == t
  {
    assert ([' '] + t)[1..] == t;
  }

  lemma ParameterAhead(w: Written, rest: Bytes)
    requires ReadsAs(w) && (rest == [] || rest[0] == ';')
    ensures Parameter([';', ' '] + w.key + ['='] + w.text + rest) == Some((w.key, w.value, rest))
  {
    var t := w.key + (['='] + (w.text + rest));
    Written4(w.key, w.text, rest);
    KeyValueAhead(w, rest);
    assert ([';'] + ([' '] + t))[1..] == [' '] + t;
    LettersToken(w.key);
    assert t[0] == w.key[0];
    BlankAhead(t);
  }

  /** Any number of parameters with different keys are all read. */
  lemma {:induction false} AllParametersRead(name: Bytes, ws: seq<Written>, params: map<Bytes, Bytes>)
    requires forall i :: 0 <= i < |ws| ==> ReadsAs(ws[i]) && ws[i].key !in params
    requires forall i, j :: 0 <= i < j < |ws| ==> ws[i].key != ws[j].key
    ensures Parameters(name, ParametersText(ws), params) == Parsed(MediaType(name, Collected(ws, params)), true)
    decreases |ws|
  {
    if ws != [] {
      var rest := ParametersText(ws[1..]);
      ParameterAhead(ws[0], rest);
      AllParametersRead(name, ws[1..], params[ws[0].key := ws[0].value]);
      assert TrimLeft(ParametersText(ws), Space) == ParametersText(ws);
    }
  }

  lemma TokenValue(w: Bytes)
    requires Token(w)
    ensures Value(w) == Some((w, []))
  {
    assert w + [] == w;
    TokenLengthOf(w, []);
  }

  lemma SecondToken(s: Bytes, n: nat)
    requires n < |s| && TokenLength(s[n + 1..]) == |s| - n - 1
    ensures forall i :: n < i < |s| ==> TokenByte(s[i])
  {
    TokenLengthTokens(s[n + 1..]);
    forall i | n < i < |s|
      ensures TokenByte(s[i])
    {
      assert s[i] == s[n + 1..][i - n - 1];
    }
  }

  /** A valid name in small letters is plain. */
  lemma ValidIsPlain(s: Bytes)
    requires ValidName(s) && Lower(s) == s
    ensures PlainName(s)
  {
    var n := TokenLength(s);
    TokenLengthTokens(s);
    LowerSmall(s);
    if n < |s| {
      SecondToken(s, n);
    }
    assert PlainAt(s, n);
  }

  lemma LowerSmall(s: Bytes)
    requires Lower(s) == s
    ensures forall i :: 0 <= i < |s| ==> !('A' <= s[i] <= 'Z')
  {
    forall i | 0 <= i < |s|
      ensures !('A' <= s[i] <= 'Z')
    {
      assert Lower(s)[i] == LowerByte(s[i]);
    }
  }

  // ---- Quoting ----

  predicate Control(c: Byte)
  {
    c as int < 32 || c as int == 127
  }

  /** No control characters. */
  predicate Printable(s: Bytes)
  {
    forall i :: 0 <= i < |s| ==> !Control(s[i])
  }

  function Hex(n: int): Byte
    requires 0 <= n < 16
  {
    "0123456789abcdef"[n]
  }

  /** What stands behind the backslash that escapes a control character. */
  function ControlName(c: Byte): Bytes
  {
    match c as int
    case 7 => ['a']
    case 8 => ['b']
    case 9 => ['t']
    case 10 => ['n']
    case 11 => ['v']
    case 12 => ['f']
    case 13 => ['r']
    case n => ['x', Hex(n / 16), Hex(n % 16)]
  }

  /** What %q writes between its quotes for text whose characters beyond ASCII are printable. */
  function Escaped(s: Bytes): Bytes
  {
    if s == [] then [] else EscapedByte(s[0]) + Escaped(s[1..])
  }

  function EscapedByte(c: Byte): Bytes
  {
    if c == '"' || c == '\\' then ['\\', c] else if Control(c) then ['\\'] + ControlName(c) else [c]
  }

  /** What the reader makes of that: an escaped control character is taken for its escape. */
  function ReadBack(s: Bytes): Bytes
  {
    if s == [] then [] else ReadByte(s[0]) + ReadBack(s[1..])
  }

  function ReadByte(c: Byte): Bytes
  {
    if Control(c) then EscapedByte(c) else [c]
  }

  predicate Ordinary(c: Byte)
  {
    ('a' <= c <= 'z') || ('0' <= c <= '9')
  }

  lemma {:induction false} QuotedOrdinary(w: Bytes, next: Bytes)
    requires forall i :: 0 <= i < |w| ==> Ordinary(w[i])
    ensures Quoted(w + next) == Ahead(w, Quoted(next))
  {
    var r := Quoted(next);
    if w == [] {
      assert w + next == next;
      assert r.Some? ==> w + r.value.0 == r.value.0;
    } else {
      QuotedOrdinary(w[1..], next);
      assert (w + next)[1..] == w[1..] + next;
      assert r.Some? ==> [w[0]] + (w[1..] + r.value.0) == w + r.value.0;
    }
  }

  lemma ControlNameOrdinary(c: Byte)
    requires Control(c)
    ensures ControlName(c) != [] && forall i :: 0 <= i < |ControlName(c)| ==> Ordinary(ControlName(c)[i])
  {
  }

  lemma OrdinaryPlain(c: Byte)
    requires Ordinary(c)
    ensures !TSpecial(c)
  {
  }

  /** A backslash in front of a character that needs none is kept. */
  lemma QuotedBackslash(s: Bytes)
    requires s != [] && !TSpecial(s[0])
    ensures Quoted(['\\'] + s) == Ahead(['\\'], Quoted(s))
  {
    assert (['\\'] + s)[1..] == s;
  }

  lemma AheadTwice(v: Bytes, w: Bytes, r: Option<(Bytes, Bytes)>)
    ensures Ahead(v, Ahead(w, r)) == Ahead(v + w, r)
  {
    if r.Some? {
      Associates(v, w, r.value.0);
    }
  }

  lemma QuotedControl(w: Bytes, next: Bytes)
    requires w != [] && forall i :: 0 <= i < |w| ==> Ordinary(w[i])
    ensures Quoted(['\\'] + w + next) == Ahead(['\\'] + w, Quoted(next))
  {
    OrdinaryPlain(w[0]);
    QuotedOrdinary(w, next);
    QuotedBackslash(w + next);
    Associates(['\\'], w, next);
    AheadTwice(['\\'], w, Quoted(next));
  }

  lemma QuotedByte(c: Byte, next: Bytes)
    ensures Quoted(EscapedByte(c) + next) == Ahead(ReadByte(c), Quoted(next))
  {
    if Control(c) {
      ControlNameOrdinary(c);
      QuotedControl(ControlName(c), next);
    } else {
      QuotedVisible(c, next);
    }
  }

  lemma QuotedVisible(c: Byte, next: Bytes)
    requires !Control(c)
    ensures Quoted(EscapedByte(c) + next) == Ahead([c], Quoted(next))
  {
    var s := EscapedByte(c) + next;
    if c == '"' || c == '\\' {
      assert s[2..] == next;
    } else {
      assert s[1..] == next;
    }
  }

  lemma {:induction false} QuotedEscaped(s: Bytes, rest: Bytes)
    ensures Quoted(Escaped(s) + (['"'] + rest)) == Some((ReadBack(s), rest))
  {
    var tail: Bytes := ['"'] + rest;
    if s == [] {
      assert tail[1..] == rest;
      assert Escaped(s) + tail == tail;
    } else {
      QuotedEscaped(s[1..], rest);
      Associates(EscapedByte(s[0]), Escaped(s[1..]), tail);
      QuotedByte(s[0], Escaped(s[1..]) + tail);
    }
  }

  /** Text comes out of its quotes as it went in, but for control characters: they stay escaped. */
  lemma QuotedValue(s: Bytes)
    ensures Value(['"'] + Escaped(s) + ['"']) == Some((ReadBack(s), []))
  {
    var text: Bytes := ['"'] + Escaped(s) + ['"'];
    assert text[1..] == Escaped(s) + (['"'] + []);
    QuotedEscaped(s, []);
  }

  lemma {:induction false} ReadBackLength(s: Bytes)
    ensures |ReadBack(s)| >= |s|
    ensures |ReadBack(s)| == |s| ==> Printable(s)
  {
    if s != [] {
      ReadBackLength(s[1..]);
    }
  }

  /** Text survives its quotes if and only if it holds no control character. */
  lemma {:induction false} ReadBackIff(s: Bytes)
    ensures ReadBack(s) == s <==> Printable(s)
  {
    ReadBackLength(s);
    if s != [] && Printable(s) {
      ReadBackIff(s[1..]);
      assert [s[0]] + s[1..] == s;
    }
  }

  lemma {:induction false} EscapedPrintable(s: Bytes)
    ensures Printable(Escaped(s))
  {
    if s != [] {
      EscapedPrintable(s[1..]);
      EscapedBytePrintable(s[0]);
    }
  }

  lemma EscapedBytePrintable(c: Byte)
    ensures Printable(EscapedByte(c))
  {
    if Control(c) {
      ControlNameOrdinary(c);
    }
  }
}
