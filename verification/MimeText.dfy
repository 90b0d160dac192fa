/** Bytes as the mail libraries treat them: letter case, blanks, tokens and substrings. */
module MimeText {
  import opened Wrappers
  import opened Text

  const CRLF: Bytes := "\r\n"

  function LowerByte(c: Byte): Byte
  {
    if 'A' <= c <= 'Z' then (c as int + 32) as char else c
  }

  /** strings.ToLower on ASCII */
  function Lower(s: Bytes): (r: Bytes)
    ensures |r| == |s|
    ensures forall i :: 0 <= i < |s| ==> r[i] == LowerByte(s[i])
  {
    if s == [] then [] else [LowerByte(s[0])] + Lower(s[1..])
  }

  lemma LowerFixed(s: Bytes)
    requires forall i :: 0 <= i < |s| ==> !('A' <= s[i] <= 'Z')
    ensures Lower(s) == s
  {
  }

  /** strings.EqualFold on ASCII */
  predicate EqualFold(a: Bytes, b: Bytes)
  {
    |a| == |b| && forall i :: 0 <= i < |a| ==> LowerByte(a[i]) == LowerByte(b[i])
  }

  predicate Blank(c: Byte)
  {
    c == ' ' || c == '\t'
  }

  predicate Space(c: Byte)
  {
    c == ' ' || 9 <= c as int <= 13
  }

  function TrimLeft(s: Bytes, drop: Byte -> bool): (r: Bytes)
    ensures |r| <= |s|
    ensures s == [] || !drop(s[0]) ==> r == s
  {
    if s != [] && drop(s[0]) then TrimLeft(s[1..], drop) else s
  }

  function TrimRight(s: Bytes, drop: Byte -> bool): (r: Bytes)
    ensures |r| <= |s|
    ensures s == [] || !drop(s[|s| - 1]) ==> r == s
  {
    if s != [] && drop(s[|s| - 1]) then TrimRight(s[..|s| - 1], drop) else s
  }

  function Trim(s: Bytes, drop: Byte -> bool): (r: Bytes)
    ensures |r| <= |s|
    ensures s == [] || (!drop(s[0]) && !drop(s[|s| - 1])) ==> r == s
  {
    TrimRight(TrimLeft(s, drop), drop)
  }

  predicate Bracket(c: Byte)
  {
    c == '<' || c == '>'
  }

  /** An id between angle brackets comes out of the brackets unchanged exactly when neither end of it is a bracket. */
  lemma BracketsTrimmed(id: Bytes)
    requires id != []
    ensures Trim(['<'] + id + ['>'], Bracket) == id <==> !Bracket(id[0]) && !Bracket(id[|id| - 1])
  {
    var s: Bytes := ['<'] + id + ['>'];
    assert s[1..] == id + ['>'];
    assert TrimLeft(s, Bracket) == TrimLeft(id + ['>'], Bracket);
    if !Bracket(id[0]) {
      assert (id + ['>'])[..|id|] == id;
      assert TrimRight(id + ['>'], Bracket) == TrimRight(id, Bracket);
      if Bracket(id[|id| - 1]) {
        assert |TrimRight(id[..|id| - 1], Bracket)| < |id|;
      }
    } else {
      TrimLeftStarts(s, Bracket);
      TrimRightPrefix(TrimLeft(s, Bracket), Bracket);
    }
  }

  /** What is left of a trimmed text does not start with what was dropped. */
  lemma {:induction false} TrimLeftStarts(s: Bytes, drop: Byte -> bool)
    ensures TrimLeft(s, drop) == [] || !drop(TrimLeft(s, drop)[0])
  {
    if s != [] && drop(s[0]) {
      TrimLeftStarts(s[1..], drop);
    }
  }

  lemma {:induction false} TrimLeftHolds(s: Bytes, drop: Byte -> bool)
    ensures forall c :: c in TrimLeft(s, drop) ==> c in s
  {
    if s != [] && drop(s[0]) {
      TrimLeftHolds(s[1..], drop);
    }
  }

  lemma {:induction false} TrimRightHolds(s: Bytes, drop: Byte -> bool)
    ensures forall c :: c in TrimRight(s, drop) ==> c in s
  {
    if s != [] && drop(s[|s| - 1]) {
      TrimRightHolds(s[..|s| - 1], drop);
    }
  }

  lemma {:induction false} TrimRightPrefix(s: Bytes, drop: Byte -> bool)
    ensures TrimRight(s, drop) <= s
  {
    if s != [] && drop(s[|s| - 1]) {
      TrimRightPrefix(s[..|s| - 1], drop);
    }
  }

  lemma Associates<T>(a: seq<T>, b: seq<T>, c: seq<T>)
    ensures a + b + c == a + (b + c)
  {
  }

  // ---- Substrings ----

  /** p stands in s at i. */
  predicate At(s: Bytes, p: Bytes, i: nat)
  {
    i + |p| <= |s| && s[i..i + |p|] == p
  }

  predicate Holds(s: Bytes, p: Bytes)
  {
    exists i :: 0 <= i <= |s| && At(s, p, i)
  }

  /** strings.Cut at a byte: what stands before its first occurrence, and what stands after. */
  function Cut(s: Bytes, sep: Byte): Option<(Bytes, Bytes)>
  {
    if s == [] then None
    else if s[0] == sep then Some(([], s[1..]))
    else match Cut(s[1..], sep)
      case None => None
      case Some(halves) => Some(([s[0]] + halves.0, halves.1))
  }

  lemma {:induction false} CutAt(a: Bytes, sep: Byte, b: Bytes)
    requires sep !in a
    ensures Cut(a + [sep] + b, sep) == Some((a, b))
  {
    var s := a + [sep] + b;
    if a == [] {
      assert s[1..] == b;
    } else {
      assert s[1..] == a[1..] + [sep] + b;
      CutAt(a[1..], sep, b);
      assert [a[0]] + a[1..] == a;
    }
  }

  lemma {:induction false} CutNowhere(s: Bytes, sep: Byte)
    requires sep !in s
    ensures Cut(s, sep) == None
  {
    if s != [] {
      CutNowhere(s[1..], sep);
    }
  }

  // ---- Fields ----

  /** strings.Fields: the maximal stretches without space. */
  function Fields(s: Bytes): seq<Bytes>
    decreases |s|
  {
    var t := TrimLeft(s, Space);
    if t == [] then []
    else
      var n := WordLength(t);
      if n == 0 then [] else [t[..n]] + Fields(t[n..])
  }

  function WordLength(s: Bytes): (n: nat)
    ensures n <= |s|
    ensures s != [] && !Space(s[0]) ==> n > 0
  {
    if s == [] || Space(s[0]) then 0 else 1 + WordLength(s[1..])
  }

  predicate Word(s: Bytes)
  {
    s != [] && forall i :: 0 <= i < |s| ==> !Space(s[i])
  }

  lemma {:induction false} WordLengthOf(w: Bytes, rest: Bytes)
    requires forall i :: 0 <= i < |w| ==> !Space(w[i])
    requires rest == [] || Space(rest[0])
    ensures WordLength(w + rest) == |w|
  {
    if w == [] {
      assert w + rest == rest;
    } else {
      assert (w + rest)[1..] == w[1..] + rest;
      WordLengthOf(w[1..], rest);
    }
  }

  /** Words joined by single spaces are the fields of the text. */
  lemma {:induction false} FieldsOfJoin(words: seq<Bytes>)
    requires forall i :: 0 <= i < |words| ==> Word(words[i])
    ensures Fields(Join(words, [' '])) == words
  {
    if |words| == 1 {
      var w := words[0];
      assert w + [] == w;
      WordLengthOf(w, []);
      assert Fields(w) == [w[..|w|]] + Fields(w[|w|..]);
      assert words == [w];
    } else if |words| > 1 {
      var w, rest := words[0], Join(words[1..], [' ']);
      var s := Join(words, [' ']);
      assert s == w + ([' '] + rest);
      WordLengthOf(w, [' '] + rest);
      FieldsOfJoin(words[1..]);
      assert s[..|w|] == w && s[|w|..] == [' '] + rest;
      assert ([' '] + rest)[1..] == rest;
      assert Fields(s) == [w] + Fields([' '] + rest);
      FieldsSkipSpace(rest);
      assert words == [w] + words[1..];
    }
  }

  lemma FieldsSkipSpace(s: Bytes)
    ensures Fields([' '] + s) == Fields(s)
  {
    assert ([' '] + s)[1..] == s;
    assert TrimLeft([' '] + s, Space) == TrimLeft(s, Space);
  }
}
