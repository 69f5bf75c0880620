/** Text codings the ledger uses: hexadecimal, decimal, and UTF-8 validity. */
module Text {
  import opened Prelude

  // ----- hexadecimal -----

  function HexDigit(n: int): byte
    requires 0 <= n < 16
  {
    if n < 10 then 0x30 + n else 0x61 + (n - 10)
  }

  function HexValue(c: byte): (v: Option<int>)
    ensures v.Some? ==> 0 <= v.value < 16 && c < 0x80
  {
    if 0x30 <= c <= 0x39 then Some(c - 0x30)
    else if 0x61 <= c <= 0x66 then Some(c - 0x61 + 10)
    else if 0x41 <= c <= 0x46 then Some(c - 0x41 + 10)
    else None
  }

  function HexEncode(bytes: Bytes): (text: Bytes)
    ensures |text| == 2 * |bytes|
  {
    if bytes == [] then []
    else [HexDigit(bytes[0] / 16), HexDigit(bytes[0] % 16)] + HexEncode(bytes[1..])
  }

  function HexDecode(text: Bytes): Option<Bytes> {
    if text == [] then Some([])
    else if |text| == 1 then None
    else
      match (HexValue(text[0]), HexValue(text[1]), HexDecode(text[2..]))
      case (Some(high), Some(low), Some(rest)) => Some([high * 16 + low] + rest)
      case _ => None
  }

  lemma {:induction false} HexRoundTrip(bytes: Bytes)
    ensures HexDecode(HexEncode(bytes)) == Some(bytes)
  {
    if bytes != [] {
      HexRoundTrip(bytes[1..]);
      var text := HexEncode(bytes);
      assert text[2..] == HexEncode(bytes[1..]);
      assert HexValue(text[0]) == Some(bytes[0] / 16) && HexValue(text[1]) == Some(bytes[0] % 16);
      assert bytes == [bytes[0] / 16 * 16 + bytes[0] % 16] + bytes[1..];
    }
  }

  lemma {:induction false} HexInjective(a: Bytes, b: Bytes)
    requires HexEncode(a) == HexEncode(b)
    ensures a == b
  {
    HexRoundTrip(a);
    HexRoundTrip(b);
  }

  /** The writer's digits, as a table. */
  const DIGITS := "0123456789abcdef"

  /** Character by character, the text is the table's entries for the high and the low half of each byte. */
  lemma {:induction false} HexIsTable(bytes: Bytes, i: nat)
    requires i < |bytes|
    ensures HexEncode(bytes)[2 * i] == DIGITS[bytes[i] / 16] as int
    ensures HexEncode(bytes)[2 * i + 1] == DIGITS[bytes[i] % 16] as int
  {
    if i == 0 {
      DigitIsTable(bytes[0] / 16);
      DigitIsTable(bytes[0] % 16);
    } else {
      HexIsTable(bytes[1..], i - 1);
      var text, rest := HexEncode(bytes), HexEncode(bytes[1..]);
      assert text[2 * i] == rest[2 * (i - 1)] && text[2 * i + 1] == rest[2 * (i - 1) + 1];
    }
  }

  lemma {:induction false} DigitIsTable(n: int)
    requires 0 <= n < 16
    ensures HexDigit(n) == DIGITS[n] as int
  {
    assert DIGITS == "0123456789" + "abcdef";
  }

  /** A digit as the writer puts it. */
  predicate LowerHex(c: byte) {
    '0' as int <= c <= '9' as int || 'a' as int <= c <= 'f' as int
  }

  /** A digit as the readers take it. */
  predicate AnyHex(c: byte) {
    LowerHex(c) || 'A' as int <= c <= 'F' as int
  }

  /** Hexadecimal text is what has whole pairs of digits, of either case. */
  lemma {:induction false} HexDecodeIff(text: Bytes)
    ensures HexDecode(text).Some? <==> |text| % 2 == 0 && forall i | 0 <= i < |text| :: AnyHex(text[i])
    decreases |text|
  {
    if |text| >= 2 {
      HexDecodeIff(text[2..]);
      assert text == [text[0], text[1]] + text[2..];
    }
  }

  /** Of the texts that decode, the writer's is the one in lower case. */
  lemma {:induction false} LowerCaseIsWritten(text: Bytes)
    requires HexDecode(text).Some?
    ensures text == HexEncode(HexDecode(text).value) <==> forall i | 0 <= i < |text| :: LowerHex(text[i])
    decreases |text|
  {
    hide HexDecode, HexEncode, LowerHex, HexDigit, HexValue;
    if text == [] {
      HexOfNothing();
    } else {
      PairDecodes(text);
      var rest, bytes := text[2..], HexDecode(text).value;
      LowerCaseIsWritten(rest);
      LowerDigit(text[0], bytes[0] / 16);
      LowerDigit(text[1], bytes[0] % 16);
      assert text == [text[0], text[1]] + rest;
    }
  }

  lemma {:induction false} HexOfNothing()
    ensures HexDecode([]) == Some([]) && HexEncode([]) == []
  {
  }

  lemma {:induction false} PairDecodes(text: Bytes)
    requires text != [] && HexDecode(text).Some?
    ensures |text| >= 2 && HexDecode(text[2..]).Some? && |HexDecode(text).value| > 0
    ensures var bytes := HexDecode(text).value;
            && bytes[1..] == HexDecode(text[2..]).value
            && HexValue(text[0]) == Some(bytes[0] / 16) && HexValue(text[1]) == Some(bytes[0] % 16)
            && HexEncode(bytes) == [HexDigit(bytes[0] / 16), HexDigit(bytes[0] % 16)] + HexEncode(bytes[1..])
  {
  }

  lemma {:induction false} LowerDigit(c: byte, n: int)
    requires 0 <= n < 16 && HexValue(c) == Some(n)
    ensures c == HexDigit(n) <==> LowerHex(c)
  {
  }

  predicate Ascii(text: Bytes) {
    forall i :: 0 <= i < |text| ==> text[i] < 0x80
  }

  lemma {:induction false} HexIsAscii(text: Bytes)
    requires HexDecode(text).Some?
    ensures Ascii(text)
  {
    if |text| >= 2 {
      HexIsAscii(text[2..]);
      assert forall i :: 2 <= i < |text| ==> text[i] == text[2..][i - 2];
    }
  }

  lemma {:induction false} HexEncodeIsAscii(bytes: Bytes)
    ensures Ascii(HexEncode(bytes))
  {
    HexRoundTrip(bytes);
    HexIsAscii(HexEncode(bytes));
  }

  // ----- decimal -----

  function Decimal(n: nat): (text: Bytes)
    ensures 0 < |text| <= n + 1
  {
    if n < 10 then [0x30 + n] else Decimal(n / 10) + [0x30 + n % 10]
  }

  function DecimalValue(text: Bytes): int {
    if text == [] then 0
    else
      var last: int := text[|text| - 1];
      10 * DecimalValue(text[..|text| - 1]) + last - 0x30
  }

  lemma {:induction false} DecimalRoundTrip(n: nat)
    ensures DecimalValue(Decimal(n)) == n
  {
    var text := Decimal(n);
    if n < 10 {
      assert text[..0] == [];
    } else {
      DecimalRoundTrip(n / 10);
      assert text[..|text| - 1] == Decimal(n / 10);
      var last: int := text[|text| - 1];
      assert last == 0x30 + n % 10;
    }
  }

  /** Decimal text has only digits, and no leading zero but for zero itself. */
  lemma {:induction false} DecimalIsPlain(n: nat)
    ensures forall i | 0 <= i < |Decimal(n)| :: '0' as int <= Decimal(n)[i] <= '9' as int
    ensures Decimal(n)[0] == '0' as int <==> n == 0
  {
    if n >= 10 {
      DecimalIsPlain(n / 10);
    }
  }

  // ----- UTF-8 (section 4 of RFC 3629) -----

  predicate Tail(c: byte) {
    0x80 <= c <= 0xBF
  }

  predicate ValidUtf8(s: Bytes)
    decreases |s|
  {
    if s == [] then true
    else if s[0] <= 0x7F then ValidUtf8(s[1..])
    else if 0xC2 <= s[0] <= 0xDF then |s| >= 2 && Tail(s[1]) && ValidUtf8(s[2..])
    else if 0xE0 <= s[0] <= 0xEF then
      && |s| >= 3 && Tail(s[1]) && Tail(s[2])
      && (s[0] == 0xE0 ==> s[1] >= 0xA0) && (s[0] == 0xED ==> s[1] <= 0x9F)
      && ValidUtf8(s[3..])
    else if 0xF0 <= s[0] <= 0xF4 then
      && |s| >= 4 && Tail(s[1]) && Tail(s[2]) && Tail(s[3])
      && (s[0] == 0xF0 ==> s[1] >= 0x90) && (s[0] == 0xF4 ==> s[1] <= 0x8F)
      && ValidUtf8(s[4..])
    else false
  }

  lemma {:induction false} AsciiIsUtf8(s: Bytes)
    requires Ascii(s)
    ensures ValidUtf8(s)
  {
    if s != [] {
      AsciiIsUtf8(s[1..]);
    }
  }

  /** A Unicode scalar value. */
  predicate Scalar(c: int) {
    0 <= c < 0xD800 || 0xE000 <= c <= 0x10_FFFF
  }

  /** Its encoding in one to four bytes. */
  function EncodeScalar(c: int): Bytes
    requires Scalar(c)
  {
    if c < 0x80 then [c]
    else if c < 0x800 then [0xC0 + c / 64, 0x80 + c % 64]
    else if c < 0x1_0000 then [0xE0 + c / 4096, 0x80 + c / 64 % 64, 0x80 + c % 64]
    else [0xF0 + c / 262144, 0x80 + c / 4096 % 64, 0x80 + c / 64 % 64, 0x80 + c % 64]
  }

  function EncodeScalars(cs: seq<int>): Bytes
    requires forall c | c in cs :: Scalar(c)
  {
    if cs == [] then [] else EncodeScalar(cs[0]) + EncodeScalars(cs[1..])
  }

  lemma {:induction false} ScalarIsValid(c: int, rest: Bytes)
    requires Scalar(c)
    ensures ValidUtf8(EncodeScalar(c) + rest) <==> ValidUtf8(rest)
  {
    if c < 0x800 {
      ShortScalarIsValid(c, rest);
    } else if c < 0x1_0000 {
      WideScalarIsValid(c, rest);
    } else {
      WidestScalarIsValid(c, rest);
    }
  }

  lemma {:induction false} ShortScalarIsValid(c: int, rest: Bytes)
    requires Scalar(c) && c < 0x800
    ensures ValidUtf8(EncodeScalar(c) + rest) <==> ValidUtf8(rest)
  {
    var s := EncodeScalar(c) + rest;
    assert s[|EncodeScalar(c)|..] == rest;
  }

  lemma {:induction false} WideScalarIsValid(c: int, rest: Bytes)
    requires Scalar(c) && 0x800 <= c < 0x1_0000
    ensures ValidUtf8(EncodeScalar(c) + rest) <==> ValidUtf8(rest)
  {
    var s := EncodeScalar(c) + rest;
    assert s[3..] == rest;
  }

  lemma {:induction false} WidestScalarIsValid(c: int, rest: Bytes)
    requires Scalar(c) && 0x1_0000 <= c
    ensures ValidUtf8(EncodeScalar(c) + rest) <==> ValidUtf8(rest)
  {
    var s := EncodeScalar(c) + rest;
    assert s[4..] == rest;
  }

  lemma {:induction false} TwoBytes(a: byte, b: byte) returns (c: int)
    requires 0xC2 <= a <= 0xDF && Tail(b)
    ensures Scalar(c) && EncodeScalar(c) == [a, b]
  {
    var x: int, y: int := a - 0xC0, b - 0x80;
    c := x * 64 + y;
  }

  lemma {:induction false} ThreeBytes(a: byte, b: byte, d: byte) returns (c: int)
    requires 0xE0 <= a <= 0xEF && Tail(b) && Tail(d) && (a == 0xE0 ==> b >= 0xA0) && (a == 0xED ==> b <= 0x9F)
    ensures Scalar(c) && EncodeScalar(c) == [a, b, d]
  {
    var x: int, y: int, z: int := a - 0xE0, b - 0x80, d - 0x80;
    c := x * 4096 + y * 64 + z;
    assert c / 64 == x * 64 + y && c / 4096 == x && c % 64 == z;
  }

  lemma {:induction false} FourBytes(a: byte, b: byte, d: byte, e: byte) returns (c: int)
    requires 0xF0 <= a <= 0xF4 && Tail(b) && Tail(d) && Tail(e) && (a == 0xF0 ==> b >= 0x90) && (a == 0xF4 ==> b <= 0x8F)
    ensures Scalar(c) && EncodeScalar(c) == [a, b, d, e]
  {
    var x: int, y: int, z: int, w: int := a - 0xF0, b - 0x80, d - 0x80, e - 0x80;
    c := x * 262144 + y * 4096 + z * 64 + w;
    assert c / 64 == x * 4096 + y * 64 + z && c / 4096 == x * 64 + y && c / 262144 == x && c % 64 == w;
  }

  /** The first scalar of a valid text, and the rest, which is valid too. */
  lemma {:induction false} FirstScalar(s: Bytes) returns (c: int)
    requires s != [] && ValidUtf8(s)
    ensures Scalar(c) && EncodeScalar(c) <= s && ValidUtf8(s[|EncodeScalar(c)|..])
  {
    if s[0] <= 0x7F {
      c := s[0];
    } else {
      hide EncodeScalar, Scalar;
      if s[0] <= 0xDF {
        c := TwoBytes(s[0], s[1]);
      } else if s[0] <= 0xEF {
        c := ThreeBytes(s[0], s[1], s[2]);
      } else {
        c := FourBytes(s[0], s[1], s[2], s[3]);
      }
    }
  }

  lemma {:induction false} ScalarsOf(s: Bytes) returns (cs: seq<int>)
    requires ValidUtf8(s)
    ensures (forall c | c in cs :: Scalar(c)) && EncodeScalars(cs) == s
    decreases |s|
  {
    hide ValidUtf8, EncodeScalar;
    if s == [] {
      cs := [];
    } else {
      var c := FirstScalar(s);
      var n := |EncodeScalar(c)|;
      ScalarIsLong(c);
      var rest := ScalarsOf(s[n..]);
      cs := [c] + rest;
      assert cs[1..] == rest && s == EncodeScalar(c) + s[n..];
    }
  }

  lemma {:induction false} ScalarIsLong(c: int)
    requires Scalar(c)
    ensures |EncodeScalar(c)| > 0
  {
  }

  lemma {:induction false} ScalarsAreValid(cs: seq<int>)
    requires forall c | c in cs :: Scalar(c)
    ensures ValidUtf8(EncodeScalars(cs))
    decreases |cs|
  {
    hide EncodeScalar;
    if cs != [] {
      hide ValidUtf8;
      ScalarsAreValid(cs[1..]);
      ScalarIsValid(cs[0], EncodeScalars(cs[1..]));
    }
  }

  /** Valid UTF-8 is exactly what scalar values encode to. */
  lemma {:induction false} ValidUtf8Iff(s: Bytes)
    ensures ValidUtf8(s) <==> exists cs | forall c | c in cs :: Scalar(c) :: EncodeScalars(cs) == s
  {
    hide ValidUtf8, EncodeScalars;
    if ValidUtf8(s) {
      var cs := ScalarsOf(s);
      assert EncodeScalars(cs) == s;
    }
    forall cs: seq<int> | (forall c | c in cs :: Scalar(c)) && EncodeScalars(cs) == s
      ensures ValidUtf8(s)
    {
      ScalarsAreValid(cs);
    }
  }
}
