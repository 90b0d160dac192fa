/**
  Standard base64 with padding (section 4 of RFC 4648), as Go's base64.StdEncoding:
  the decoder skips carriage returns and newlines, insists on padding, and ignores
  the unused bits of a final quantum.
 */
module Base64 {
  import opened Wrappers
  import opened Text

  datatype Corrupt = CorruptInput

  function Digit(i: nat): (c: Byte)
    requires i < 64
    ensures c != '=' && c != '\r' && c != '\n' && c != '-'
  {
    if i < 26 then (i + 'A' as int) as char
    else if i < 52 then (i - 26 + 'a' as int) as char
    else if i < 62 then (i - 52 + '0' as int) as char
    else if i == 62 then '+'
    else '/'
  }

  function Value(c: Byte): (v: Option<nat>)
    ensures v.Some? ==> v.value < 64
  {
    if 'A' <= c <= 'Z' then Some(c as int - 'A' as int)
    else if 'a' <= c <= 'z' then Some(c as int - 'a' as int + 26)
    else if '0' <= c <= '9' then Some(c as int - '0' as int + 52)
    else if c == '+' then Some(62)
    else if c == '/' then Some(63)
    else None
  }

  /** The four sextets of three octets. */
  function Sextet0(x: Byte): (r: nat)
    ensures r < 64
  {
    x as int / 4
  }

  function Sextet1(x: Byte, y: Byte): (r: nat)
    ensures r < 64
  {
    x as int % 4 * 16 + y as int / 16
  }

  function Sextet2(y: Byte, z: Byte): (r: nat)
    ensures r < 64
  {
    y as int % 16 * 4 + z as int / 64
  }

  function Sextet3(z: Byte): (r: nat)
    ensures r < 64
  {
    z as int % 64
  }

  function Encode(b: Bytes): Bytes
  {
    var zero: Byte := 0 as char;
    if |b| == 0 then []
    else if |b| == 1 then [Digit(Sextet0(b[0])), Digit(Sextet1(b[0], zero)), '=', '=']
    else if |b| == 2 then [Digit(Sextet0(b[0])), Digit(Sextet1(b[0], b[1])), Digit(Sextet2(b[1], zero)), '=']
    else
      [Digit(Sextet0(b[0])), Digit(Sextet1(b[0], b[1])), Digit(Sextet2(b[1], b[2])), Digit(Sextet3(b[2]))]
      + Encode(b[3..])
  }

  function StripNewlines(s: Bytes): (r: Bytes)
    ensures |r| <= |s|
  {
    if s == [] then []
    else if s[0] == '\r' || s[0] == '\n' then StripNewlines(s[1..])
    else [s[0]] + StripNewlines(s[1..])
  }

  /** The three octets of four sextets. */
  function Octet0(p: nat, q: nat): Byte
    requires p < 64 && q < 64
  {
    (p * 4 + q / 16) as char
  }

  function Octet1(q: nat, u: nat): Byte
    requires q < 64 && u < 64
  {
    (q % 16 * 16 + u / 4) as char
  }

  function Octet2(u: nat, v: nat): Byte
    requires u < 64 && v < 64
  {
    (u % 4 * 64 + v) as char
  }

  /** Decodes four characters at a time; '=' may only close the last quantum. */
  function DecodeQuanta(s: Bytes): (r: Result<Bytes, Corrupt>)
    ensures r.Success? ==> |r.value| <= |s|
  {
    if s == [] then Success([])
    else if |s| < 4 then Failure(CorruptInput)
    else
      match (Value(s[0]), Value(s[1]))
      case (Some(p), Some(q)) =>
        var first := Octet0(p, q);
        if s[2] == '=' then
          if s[3] == '=' && |s| == 4 then Success([first]) else Failure(CorruptInput)
        else (match Value(s[2])
              case None => Failure(CorruptInput)
              case Some(u) =>
                var second := Octet1(q, u);
                if s[3] == '=' then
                  if |s| == 4 then Success([first, second]) else Failure(CorruptInput)
                else (match Value(s[3])
                      case None => Failure(CorruptInput)
                      case Some(v) =>
                        var third := Octet2(u, v);
                        match DecodeQuanta(s[4..])
                        case Success(rest) => Success([first, second, third] + rest)
                        case Failure(e) => Failure(e)))
      case (_, _) => Failure(CorruptInput)
  }

  function Decode(s: Bytes): (r: Result<Bytes, Corrupt>)
    ensures r.Success? ==> |r.value| <= |s|
  {
    DecodeQuanta(StripNewlines(s))
  }

  lemma ValueOfDigit(i: nat)
    requires i < 64
    ensures Value(Digit(i)) == Some(i)
  {
    if i < 26 {
      assert Digit(i) as int == i + 'A' as int;
    } else if i < 52 {
      assert Digit(i) as int == i - 26 + 'a' as int;
    } else if i < 62 {
      assert Digit(i) as int == i - 52 + '0' as int;
    }
  }

  lemma OctetsOfSextets(x: Byte, y: Byte, z: Byte)
    ensures Octet0(Sextet0(x), Sextet1(x, y)) == x
    ensures Octet1(Sextet1(x, y), Sextet2(y, z)) == y
    ensures Octet2(Sextet2(y, z), Sextet3(z)) == z
  {
    assert Sextet1(x, y) / 16 == x as int % 4;
    assert Sextet1(x, y) % 16 == y as int / 16;
    assert Sextet2(y, z) / 4 == y as int % 16;
    assert Sextet2(y, z) % 4 == z as int / 64;
  }

  lemma FullQuantum(b: Bytes)
    requires |b| >= 3
    ensures DecodeQuanta(Encode(b)) ==
            match DecodeQuanta(Encode(b[3..]))
            case Success(r) => Success([b[0], b[1], b[2]] + r)
            case Failure(c) => Failure(c)
  {
    var e := Encode(b);
    assert e[4..] == Encode(b[3..]);
    ValueOfDigit(Sextet0(b[0]));
    ValueOfDigit(Sextet1(b[0], b[1]));
    ValueOfDigit(Sextet2(b[1], b[2]));
    ValueOfDigit(Sextet3(b[2]));
    OctetsOfSextets(b[0], b[1], b[2]);
  }

  lemma LastByte(b: Bytes)
    requires |b| == 1
    ensures DecodeQuanta(Encode(b)) == Success(b)
  {
    var zero: Byte := 0 as char;
    ValueOfDigit(Sextet0(b[0]));
    ValueOfDigit(Sextet1(b[0], zero));
    OctetsOfSextets(b[0], zero, zero);
    assert b == [b[0]];
  }

  lemma LastTwoBytes(b: Bytes)
    requires |b| == 2
    ensures DecodeQuanta(Encode(b)) == Success(b)
  {
    var zero: Byte := 0 as char;
    ValueOfDigit(Sextet0(b[0]));
    ValueOfDigit(Sextet1(b[0], b[1]));
    ValueOfDigit(Sextet2(b[1], zero));
    OctetsOfSextets(b[0], b[1], zero);
    assert b == [b[0], b[1]];
  }

  lemma {:induction false} DecodeQuantaEncode(b: Bytes)
    ensures DecodeQuanta(Encode(b)) == Success(b)
  {
    if |b| == 1 {
      LastByte(b);
    } else if |b| == 2 {
      LastTwoBytes(b);
    } else if |b| >= 3 {
      assert [b[0], b[1], b[2]] + b[3..] == b;
      DecodeQuantaEncode(b[3..]);
      FullQuantum(b);
    }
  }

  /** Only alphabet characters and padding are written: no newline and no dash. */
  predicate Plain(s: Bytes)
  {
    forall i :: 0 <= i < |s| ==> s[i] != '\r' && s[i] != '\n' && s[i] != '-'
  }

  lemma {:induction false} EncodeIsPlain(b: Bytes)
    ensures Plain(Encode(b))
    ensures Encode(b) == [] <==> b == []
  {
    if |b| >= 3 {
      EncodeIsPlain(b[3..]);
    }
  }

  lemma {:induction false} StripPlain(s: Bytes)
    requires Plain(s)
    ensures StripNewlines(s) == s
  {
    if s != [] {
      StripPlain(s[1..]);
    }
  }

  /** Decoding is a left inverse of encoding on every byte string. */
  lemma DecodeEncode(b: Bytes)
    ensures Decode(Encode(b)) == Success(b)
  {
    EncodeIsPlain(b);
    StripPlain(Encode(b));
    DecodeQuantaEncode(b);
  }

  // ---- What decodes ----

  /** Line ends are ignored wherever they stand. */
  lemma LineEndsIgnored(a: Bytes, c: Byte, b: Bytes)
    requires c == '\r' || c == '\n'
    ensures Decode(a + [c] + b) == Decode(a + b)
  {
    LineEndStripped(a, c, b);
  }

  lemma {:induction false} LineEndStripped(a: Bytes, c: Byte, b: Bytes)
    requires c == '\r' || c == '\n'
    ensures StripNewlines(a + [c] + b) == StripNewlines(a + b)
  {
    if a == [] {
      assert a + [c] + b == [c] + b && ([c] + b)[1..] == b && a + b == b;
    } else {
      assert (a + [c] + b)[1..] == a[1..] + [c] + b && (a + b)[1..] == a[1..] + b;
      LineEndStripped(a[1..], c, b);
    }
  }

  predicate HasValue(c: Byte)
  {
    Value(c).Some?
  }

  predicate AllDigits(s: Bytes)
  {
    forall i :: 0 <= i < |s| ==> HasValue(s[i])
  }

  /** Digits in groups of four, of which the last may end in one or two padding characters instead. */
  predicate WellFormed(s: Bytes)
  {
    && |s| % 4 == 0
    && (|| AllDigits(s)
        || (|s| > 0 && s[|s| - 1] == '=' && AllDigits(s[..|s| - 1]))
        || (|s| > 0 && s[|s| - 1] == s[|s| - 2] == '=' && AllDigits(s[..|s| - 2])))
  }

  lemma OneMoreGroup(s: Bytes)
    requires |s| > 4
    ensures WellFormed(s) <==> AllDigits(s[..4]) && WellFormed(s[4..])
  {
    var t := s[4..];
    assert s == s[..4] + t;
    assert |t| % 4 == 0 ==> t[..|t| - 1] == s[..|s| - 1][4..];
    assert |t| % 4 == 0 ==> t[..|t| - 2] == s[..|s| - 2][4..];
  }

  lemma OneGroupDecodes(s: Bytes)
    requires |s| <= 4
    ensures DecodeQuanta(s).Success? <==> WellFormed(s)
  {
    if |s| == 4 {
      assert s[4..] == [];
      assert AllDigits(s) <==> HasValue(s[0]) && HasValue(s[1]) && HasValue(s[2]) && HasValue(s[3]);
      assert AllDigits(s[..3]) <==> HasValue(s[0]) && HasValue(s[1]) && HasValue(s[2]);
      assert AllDigits(s[..2]) <==> HasValue(s[0]) && HasValue(s[1]);
    }
  }

  lemma FourDigits(s: Bytes)
    requires |s| >= 4
    ensures AllDigits(s[..4]) <==> HasValue(s[0]) && HasValue(s[1]) && HasValue(s[2]) && HasValue(s[3])
  {
  }

  lemma PadIsNoDigit(c: Byte)
    requires c == '='
    ensures !HasValue(c)
  {
  }

  lemma GroupsDecode(s: Bytes)
    requires |s| > 4
    ensures DecodeQuanta(s).Success? <==> AllDigits(s[..4]) && DecodeQuanta(s[4..]).Success?
  {
    FourDigits(s);
    if s[2] == '=' {
      PadIsNoDigit(s[2]);
    } else if s[3] == '=' {
      PadIsNoDigit(s[3]);
    }
  }

  /** Text without line ends decodes exactly when it is well-formed. */
  lemma {:induction false} DecodesIff(s: Bytes)
    ensures DecodeQuanta(s).Success? <==> WellFormed(s)
  {
    if |s| > 4 {
      OneMoreGroup(s);
      GroupsDecode(s);
      DecodesIff(s[4..]);
    } else {
      OneGroupDecodes(s);
    }
  }

  // ---- The encoding as the standard tells it ----

  const CAPITALS: Bytes := "ABCDEFGHIJKLMNOPQRSTUVWXYZ"
  const SMALL: Bytes := "abcdefghijklmnopqrstuvwxyz"
  const DIGITS: Bytes := "0123456789"

  /** Table 1 of RFC 4648. */
  const ALPHABET: Bytes := CAPITALS + SMALL + DIGITS + ['+', '/']

  lemma Capitals(i: nat)
    requires i < 26
    ensures CAPITALS[i] as int == 'A' as int + i
  {
  }

  lemma SmallLetters(i: nat)
    requires i < 26
    ensures SMALL[i] as int == 'a' as int + i
  {
  }

  lemma Numerals(i: nat)
    requires i < 10
    ensures DIGITS[i] as int == '0' as int + i
  {
  }

  lemma DigitsAreAlphabet(i: nat)
    requires i < 64
    ensures |ALPHABET| == 64 && Digit(i) == ALPHABET[i]
  {
    if i < 26 {
      Capitals(i);
    } else if i < 52 {
      SmallLetters(i - 26);
    } else if i < 62 {
      Numerals(i - 52);
    }
  }

  /** Only characters of the alphabet have a value: their place in it. */
  lemma ValuesArePlaces(c: Byte)
    requires Value(c).Some?
    ensures |ALPHABET| == 64 && ALPHABET[Value(c).value] == c
  {
    DigitsAreAlphabet(Value(c).value);
  }

  /** The k-th of the four six-bit groups of a 24-bit group, from the left. */
  function Group(n: nat, k: nat): (g: nat)
    requires k < 4
    ensures g < 64
  {
    (if k == 0 then n / 262144 else if k == 1 then n / 4096 else if k == 2 then n / 64 else n) % 64
  }

  lemma FirstTwoGroups(x: Byte, y: Byte, z: Byte)
    ensures
      var n := x as int * 65536 + y as int * 256 + z as int;
      n / 262144 == x as int / 4 && n / 4096 == x as int * 16 + y as int / 16
  {
    var n := x as int * 65536 + y as int * 256 + z as int;
    assert n == 262144 * (x as int / 4) + (x as int % 4 * 65536 + y as int * 256 + z as int);
    assert n == 4096 * (x as int * 16 + y as int / 16) + (y as int % 16 * 256 + z as int);
  }

  lemma LastTwoGroups(x: Byte, y: Byte, z: Byte)
    ensures
      var n := x as int * 65536 + y as int * 256 + z as int;
      n / 64 == x as int * 1024 + y as int * 4 + z as int / 64 && n % 64 == z as int % 64
  {
    var n := x as int * 65536 + y as int * 256 + z as int;
    assert n == 64 * (x as int * 1024 + y as int * 4 + z as int / 64) + z as int % 64;
  }

  lemma GroupsAreSextets(x: Byte, y: Byte, z: Byte)
    ensures
      var n := x as int * 65536 + y as int * 256 + z as int;
      && Group(n, 0) == Sextet0(x) && Group(n, 1) == Sextet1(x, y)
      && Group(n, 2) == Sextet2(y, z) && Group(n, 3) == Sextet3(z)
  {
    FirstTwoGroups(x, y, z);
    LastTwoGroups(x, y, z);
    assert x as int * 16 + y as int / 16 == 64 * (x as int / 4) + Sextet1(x, y);
    assert x as int * 1024 + y as int * 4 + z as int / 64 == 64 * (x as int * 16 + y as int / 16) + Sextet2(y, z);
  }

  /** The digits of a 24-bit group. */
  function Code(n: nat): (c: Bytes)
    ensures |c| == 4
  {
    [Digit(Group(n, 0)), Digit(Group(n, 1)), Digit(Group(n, 2)), Digit(Group(n, 3))]
  }

  /** The octet at a position, or zero bits behind the end. */
  function OctetAt(b: Bytes, i: nat): Byte
  {
    if i < |b| then b[i] else 0 as char
  }

  /** The 24 bits of the first three octets. */
  function FirstGroup(b: Bytes): nat
    requires b != []
  {
    b[0] as int * 65536 + OctetAt(b, 1) as int * 256 + OctetAt(b, 2) as int
  }

  /** The four characters of n octets with these digits. */
  function Padded(code: Bytes, n: nat): Bytes
    requires |code| == 4
  {
    if n == 1 then [code[0], code[1], '=', '='] else if n == 2 then [code[0], code[1], code[2], '='] else code
  }

  lemma CodeIsDigits(x: Byte, y: Byte, z: Byte)
    ensures Code(x as int * 65536 + y as int * 256 + z as int) ==
            [Digit(Sextet0(x)), Digit(Sextet1(x, y)), Digit(Sextet2(y, z)), Digit(Sextet3(z))]
  {
    GroupsAreSextets(x, y, z);
  }

  lemma EncodeShort(b: Bytes, code: Bytes)
    requires 1 <= |b| <= 2 && |code| == 4 && code[0] == Digit(Sextet0(b[0]))
    requires code[1] == Digit(Sextet1(b[0], OctetAt(b, 1)))
    requires |b| == 2 ==> code[2] == Digit(Sextet2(b[1], 0 as char))
    ensures Encode(b) == Padded(code, |b|)
  {
  }

  lemma EncodeLong(b: Bytes, code: Bytes)
    requires |b| >= 3
    requires code == [Digit(Sextet0(b[0])), Digit(Sextet1(b[0], b[1])), Digit(Sextet2(b[1], b[2])),
                      Digit(Sextet3(b[2]))]
    ensures Encode(b) == Padded(code, |b|) + Encode(b[3..])
  {
  }

  /**
    Three octets make a 24-bit group of four digits; a last group is filled with zero bits on the right, and digits
    that hold none of its octets are padding.
   */
  lemma EncodesGroups(b: Bytes)
    requires b != []
    ensures Encode(b) == Padded(Code(FirstGroup(b)), |b|) + Encode(if |b| >= 3 then b[3..] else [])
  {
    CodeIsDigits(b[0], OctetAt(b, 1), OctetAt(b, 2));
    if |b| >= 3 {
      EncodeLong(b, Code(FirstGroup(b)));
    } else {
      EncodeShort(b, Code(FirstGroup(b)));
      assert Padded(Code(FirstGroup(b)), |b|) + [] == Padded(Code(FirstGroup(b)), |b|);
    }
  }
}
