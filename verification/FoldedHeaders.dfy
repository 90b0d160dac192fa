/** Header fields as other mail programs write them: folded over several lines, and with names in any letter case. */
module FoldedHeaders {
  import opened Wrappers
  import opened Text
  import opened MimeText
  import opened MimeHeaders

  // ---- Folding ----

  /** A continuation line: blanks, and then text that neither starts nor ends with one. */
  datatype Continuation = Continuation(indent: Bytes, text: Bytes)

  predicate NoLineEnd(s: Bytes)
  {
    '\n' !in s && '\r' !in s
  }

  /** Text without a line end that starts and ends with no blank. */
  predicate Bare(s: Bytes)
  {
    s != [] && NoLineEnd(s) && s[0] !in " \t" && s[|s| - 1] !in " \t"
  }

  predicate Foldable(c: Continuation)
  {
    c.indent != [] && (forall i :: 0 <= i < |c.indent| ==> c.indent[i] in " \t") && Bare(c.text)
  }

  function Folded(lines: seq<Continuation>, end: Bytes): Bytes
  {
    if lines == [] then [] else lines[0].indent + lines[0].text + end + Folded(lines[1..], end)
  }

  /** The texts, each behind one space. */
  function Spaced(lines: seq<Continuation>): Bytes
  {
    if lines == [] then [] else [' '] + lines[0].text + Spaced(lines[1..])
  }

  predicate LineEnd(end: Bytes)
  {
    end == ['\n'] || end == ['\r', '\n']
  }

  lemma BareLine(text: Bytes, end: Bytes, rest: Bytes)
    requires NoLineEnd(text) && LineEnd(end)
    ensures ReadLine(text + end + rest) == (text, rest)
  {
    var s := text + end + rest;
    if end == ['\n'] {
      CutAt(text, '\n', rest);
    } else {
      assert s == (text + ['\r']) + ['\n'] + rest;
      CutAt(text + ['\r'], '\n', rest);
      assert (text + ['\r'])[..|text|] == text;
    }
  }

  lemma {:induction false} IndentGone(indent: Bytes, s: Bytes)
    requires forall i :: 0 <= i < |indent| ==> Blank(indent[i])
    requires s == [] || !Blank(s[0])
    ensures TrimLeft(indent + s, Blank) == s
  {
    if indent == [] {
      assert indent + s == s;
    } else {
      assert (indent + s)[1..] == indent[1..] + s;
      IndentGone(indent[1..], s);
    }
  }

  lemma OneUnfolded(line: Bytes, c: Continuation, end: Bytes, behind: Bytes)
    requires LineEnd(end) && Foldable(c)
    ensures Unfold(line, c.indent + c.text + end + behind) == Unfold(line + [' '] + c.text, behind)
  {
    var more := c.text + end + behind;
    var rest := c.indent + c.text + end + behind;
    assert rest == c.indent + more;
    IndentGone(c.indent, more);
    BareLine(c.text, end, behind);
    assert rest[0] == c.indent[0] && more != [];
  }

  lemma Regroup(a: Bytes, b: Bytes, c: Bytes, d: Bytes, e: Bytes)
    ensures a + b + c + d + e == a + b + c + (d + e)
  {
  }

  lemma {:induction false} Unfolded(line: Bytes, lines: seq<Continuation>, end: Bytes, rest: Bytes)
    requires LineEnd(end) && (forall i :: 0 <= i < |lines| ==> Foldable(lines[i])) && (rest == [] || !Blank(rest[0]))
    ensures Unfold(line, Folded(lines, end) + rest) == (line + Spaced(lines), rest)
    decreases |lines|
  {
    if lines == [] {
      assert Folded(lines, end) + rest == rest;
      assert line + Spaced(lines) == line;
    } else {
      var c := lines[0];
      Regroup(c.indent, c.text, end, Folded(lines[1..], end), rest);
      OneUnfolded(line, c, end, Folded(lines[1..], end) + rest);
      Unfolded(line + [' '] + c.text, lines[1..], end, rest);
      Associates(line, [' '] + c.text, Spaced(lines[1..]));
      Associates(line, [' '], c.text);
    }
  }

  lemma {:induction false} SpacedHolds(lines: seq<Continuation>, p: Byte -> bool)
    requires p(' ') && forall i :: 0 <= i < |lines| ==> All(lines[i].text, p)
    ensures All(Spaced(lines), p)
  {
    if lines != [] {
      SpacedHolds(lines[1..], p);
    }
  }

  lemma ReadUnfolded(line: Bytes, s: Bytes, after: Bytes, whole: Bytes, rest: Bytes, f: Field, strict: bool)
    requires s != [] && ReadLine(s) == (line, after) && ':' in line && Trim(line, Blank) == line
    requires Unfold(line, after) == (whole, rest) && FieldOf(whole, strict) == Some([f])
    ensures ReadFields(s, strict) == Prepend([f], ReadFields(rest, strict))
  {
  }

  lemma FieldOfValue(key: Bytes, value: Bytes, strict: bool)
    requires key != [] && ':' !in key && value != [] && !Blank(value[0])
    requires strict ==> All(key, KeyByte) && All(value, ValueByte)
    ensures FieldOf(key + [':'] + ([' '] + value), strict) == Some([Field(key, value)])
  {
    var tail: Bytes := [' '] + value;
    CutAt(key, ':', tail);
    assert tail[1..] == value;
    assert strict ==> All(tail, ValueByte);
  }

  /** The first line of a field: its key, a colon, a space, and text. */
  function FirstLine(key: Bytes, first: Bytes): Bytes
  {
    key + [':', ' '] + first
  }

  lemma FirstLineIs(key: Bytes, first: Bytes)
    requires key != [] && NoLineEnd(key) && !Blank(key[0]) && Bare(first)
    ensures
      var line := FirstLine(key, first);
      ':' in line && NoLineEnd(line) && Trim(line, Blank) == line
  {
    var line := FirstLine(key, first);
    assert line[|key|] == ':' && line[0] == key[0] && line[|line| - 1] == first[|first| - 1];
  }

  lemma WholeLine(key: Bytes, first: Bytes, more: Bytes)
    ensures FirstLine(key, first) + more == key + [':'] + ([' '] + (first + more))
  {
  }

  /**
    A field that is folded over several lines, with either line end and any blanks before each continuation, is read as
    one: its pieces joined by single spaces.
   */
  lemma FoldedRead(key: Bytes, first: Bytes, lines: seq<Continuation>, end: Bytes, rest: Bytes, strict: bool)
    requires LineEnd(end) && (forall i :: 0 <= i < |lines| ==> Foldable(lines[i])) && (rest == [] || !Blank(rest[0]))
    requires key != [] && NoLineEnd(key) && ':' !in key && !Blank(key[0]) && Bare(first)
    requires strict ==> All(key, KeyByte) && All(first, ValueByte)
                        && forall i :: 0 <= i < |lines| ==> All(lines[i].text, ValueByte)
    ensures ReadFields(FirstLine(key, first) + end + (Folded(lines, end) + rest), strict) ==
            Prepend([Field(key, first + Spaced(lines))], ReadFields(rest, strict))
  {
    var line, after := FirstLine(key, first), Folded(lines, end) + rest;
    FirstLineIs(key, first);
    BareLine(line, end, after);
    Unfolded(line, lines, end, rest);
    WholeLine(key, first, Spaced(lines));
    if strict {
      SpacedHolds(lines, ValueByte);
    }
    FieldOfValue(key, first + Spaced(lines), strict);
    ReadUnfolded(line, line + end + after, after, line + Spaced(lines), rest, Field(key, first + Spaced(lines)),
                 strict);
  }

  /** White space in the sense of section 2.2 of RFC 5322, and the other two control characters that count as such. */
  predicate WhiteSpace(s: Bytes)
  {
    forall i :: 0 <= i < |s| ==> s[i] == ' ' || s[i] as int in {9, 10, 11, 12, 13}
  }

  lemma {:induction false} GapGone(gap: Bytes, s: Bytes)
    requires WhiteSpace(gap)
    ensures TrimLeft(gap + s, Space) == TrimLeft(s, Space)
  {
    if gap == [] {
      assert gap + s == s;
    } else {
      assert (gap + s)[1..] == gap[1..] + s;
      GapGone(gap[1..], s);
    }
  }

  lemma FieldsSkip(gap: Bytes, s: Bytes)
    requires WhiteSpace(gap)
    ensures Fields(gap + s) == Fields(s)
  {
    GapGone(gap, s);
  }

  /** Ids are told apart by any white space between them. */
  lemma WordsApart(word: Bytes, gap: Bytes, rest: Bytes)
    requires Word(word) && gap != [] && WhiteSpace(gap)
    ensures Fields(word + gap + rest) == [word] + Fields(rest)
  {
    var behind := gap + rest;
    assert word + gap + rest == word + behind;
    assert Space(behind[0]) && (word + behind)[0] == word[0];
    WordLengthOf(word, behind);
    assert (word + behind)[..|word|] == word && (word + behind)[|word|..] == behind;
    FieldsSkip(gap, rest);
  }

  // ---- Names ----

  /** The same letter, in any case. */
  predicate SameLetter(c: Byte, d: Byte)
  {
    || c == d
    || ('a' <= c <= 'z' && 'A' <= d <= 'Z' && c as int - 'a' as int == d as int - 'A' as int)
    || ('A' <= c <= 'Z' && 'a' <= d <= 'z' && c as int - 'A' as int == d as int - 'a' as int)
  }

  /** Names are the same exactly when they differ in letter case at most. */
  lemma NamesFold(a: Bytes, b: Bytes)
    ensures EqualFold(a, b) <==> |a| == |b| && forall i :: 0 <= i < |a| ==> SameLetter(a[i], b[i])
  {
    if |a| == |b| {
      forall i | 0 <= i < |a|
        ensures LowerByte(a[i]) == LowerByte(b[i]) <==> SameLetter(a[i], b[i])
      {
      }
    }
  }

  /** A field is found under its name in any letter case: the first one, and nothing if there is none. */
  lemma {:induction false} FirstNamedIsGot(fields: seq<Field>, name: Bytes, i: nat)
    requires i <= |fields| && forall j :: 0 <= j < i ==> !EqualFold(fields[j].key, name)
    ensures i == |fields| ==> Get(fields, name) == []
    ensures i < |fields| && EqualFold(fields[i].key, name) ==> Get(fields, name) == fields[i].value
  {
    if i > 0 {
      FirstNamedIsGot(fields[1..], name, i - 1);
    }
  }

  // ---- Trimming ----

  /** Trimming takes away, at both ends, what is to be dropped, and stops at what is not. */
  lemma TrimmedBetween(s: Bytes, drop: Byte -> bool) returns (left: Bytes, right: Bytes)
    ensures s == left + Trim(s, drop) + right && All(left, drop) && All(right, drop)
    ensures Trim(s, drop) != [] ==> !drop(Trim(s, drop)[0]) && !drop(Trim(s, drop)[|Trim(s, drop)| - 1])
  {
    left := LeftTrimmed(s, drop);
    right := RightTrimmed(TrimLeft(s, drop), drop);
    TrimLeftStarts(s, drop);
    TrimRightPrefix(TrimLeft(s, drop), drop);
  }

  lemma {:induction false} LeftTrimmed(s: Bytes, drop: Byte -> bool) returns (left: Bytes)
    ensures s == left + TrimLeft(s, drop) && All(left, drop)
  {
    left := [];
    if s != [] && drop(s[0]) {
      var more := LeftTrimmed(s[1..], drop);
      left := [s[0]] + more;
    }
  }

  lemma {:induction false} RightTrimmed(s: Bytes, drop: Byte -> bool) returns (right: Bytes)
    ensures s == TrimRight(s, drop) + right && All(right, drop)
    ensures TrimRight(s, drop) != [] ==> !drop(TrimRight(s, drop)[|TrimRight(s, drop)| - 1])
  {
    right := [];
    if s != [] && drop(s[|s| - 1]) {
      var more := RightTrimmed(s[..|s| - 1], drop);
      right := more + [s[|s| - 1]];
    }
  }
}
