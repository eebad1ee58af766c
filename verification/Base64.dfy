// Bytes, and the base64 text of a byte sequence (section 4 of RFC 4648).
module Base64 {
  type Byte = b: int | 0 <= b < 256
  type Bytes = seq<Byte>

  type Digit = d: int | 0 <= d < 64

  const PAD := '='

  // The alphabet of table 1.
  function Letter(d: Digit): char {
    if d < 26 then 'A' + d as char
    else if d < 52 then 'a' + (d - 26) as char
    else if d < 62 then '0' + (d - 52) as char
    else if d == 62 then '+' else '/'
  }

  predicate IsLetter(c: char) {
    'A' <= c <= 'Z' || 'a' <= c <= 'z' || '0' <= c <= '9' || c == '+' || c == '/'
  }

  function DigitOf(c: char): Digit
    requires IsLetter(c)
  {
    if 'A' <= c <= 'Z' then c as int - 'A' as int
    else if 'a' <= c <= 'z' then 26 + (c as int - 'a' as int)
    else if '0' <= c <= '9' then 52 + (c as int - '0' as int)
    else if c == '+' then 62 else 63
  }

  // Three bytes as four groups of six bits; a last group of one or two bytes is filled with zero bits.
  function ToDigits(b: Bytes): seq<Digit> {
    if b == [] then []
    else if |b| == 1 then [b[0] / 4, b[0] % 4 * 16]
    else if |b| == 2 then [b[0] / 4, b[0] % 4 * 16 + b[1] / 16, b[1] % 16 * 4]
    else [b[0] / 4, b[0] % 4 * 16 + b[1] / 16, b[1] % 16 * 4 + b[2] / 64, b[2] % 64] + ToDigits(b[3..])
  }

  function Byte1(d0: int, d1: int): int { d0 * 4 + d1 / 16 }
  function Byte2(d1: int, d2: int): int { d1 % 16 * 16 + d2 / 4 }
  function Byte3(d2: int, d3: int): int { d2 % 4 * 64 + d3 }

  function FromDigits(d: seq<Digit>): Bytes {
    if |d| < 2 then []
    else if |d| == 2 then [Byte1(d[0], d[1])]
    else if |d| == 3 then [Byte1(d[0], d[1]), Byte2(d[1], d[2])]
    else [Byte1(d[0], d[1]), Byte2(d[1], d[2]), Byte3(d[2], d[3])] + FromDigits(d[4..])
  }

  function Letters(d: seq<Digit>): string {
    if d == [] then "" else [Letter(d[0])] + Letters(d[1..])
  }

  function Padding(n: nat): string {
    if n % 3 == 0 then "" else if n % 3 == 1 then [PAD, PAD] else [PAD]
  }

  function Encode(b: Bytes): string {
    Letters(ToDigits(b)) + Padding(|b|)
  }

  // Reading stops at the padding; a character outside the alphabet is passed over.
  function DigitsOf(text: string): seq<Digit> {
    if text == "" || text[0] == PAD then []
    else if IsLetter(text[0]) then [DigitOf(text[0])] + DigitsOf(text[1..])
    else DigitsOf(text[1..])
  }

  function Decode(text: string): Bytes {
    FromDigits(DigitsOf(text))
  }

  lemma LetterRoundTrip(d: Digit)
    ensures IsLetter(Letter(d)) && DigitOf(Letter(d)) == d && Letter(d) != PAD
  {
  }

  lemma OneLetter(d: Digit, text: string)
    ensures DigitsOf([Letter(d)] + text) == [d] + DigitsOf(text)
  {
    LetterRoundTrip(d);
    assert ([Letter(d)] + text)[1..] == text;
  }

  lemma {:induction false} LettersRoundTrip(d: seq<Digit>, rest: string)
    requires rest == "" || rest[0] == PAD
    ensures DigitsOf(Letters(d) + rest) == d
  {
    if d == [] {
      assert Letters(d) + rest == rest;
    } else {
      assert Letters(d) + rest == [Letter(d[0])] + (Letters(d[1..]) + rest);
      OneLetter(d[0], Letters(d[1..]) + rest);
      LettersRoundTrip(d[1..], rest);
    }
  }

  lemma {:induction false} DigitsRoundTrip(b: Bytes)
    ensures FromDigits(ToDigits(b)) == b
  {
    if |b| > 2 {
      assert b == [b[0], b[1], b[2]] + b[3..];
      var d := ToDigits(b);
      assert d[4..] == ToDigits(b[3..]);
      DigitsRoundTrip(b[3..]);
      assert FromDigits(d) == [b[0], b[1], b[2]] + FromDigits(d[4..]);
    }
  }

  lemma RoundTrip(b: Bytes)
    ensures Decode(Encode(b)) == b
  {
    LettersRoundTrip(ToDigits(b), Padding(|b|));
    DigitsRoundTrip(b);
  }

  // ---------------------------------------------------------------- the text itself

  // Table 1 of the alphabet.
  lemma CapitalLetters(d: Digit, table: string)
    requires d < 26 && table == "ABCDEFGHIJKLMNOPQRSTUVWXYZ"
    ensures Letter(d) == table[d]
  {
  }

  lemma SmallLetters(d: Digit, table: string)
    requires 26 <= d < 52 && table == "abcdefghijklmnopqrstuvwxyz"
    ensures Letter(d) == table[d - 26]
  {
  }

  lemma OtherLetters(d: Digit, table: string)
    requires 52 <= d && table == "0123456789+/"
    ensures Letter(d) == table[d - 52]
  {
  }

  // Three bytes and the four digits they are written as are the same 24 bits.
  lemma SameBits(b: Bytes)
    requires |b| >= 3
    ensures var d := ToDigits(b);
            && |d| >= 4 && d[4..] == ToDigits(b[3..])
            && 0x10000 * (b[0] as int) + 0x100 * (b[1] as int) + (b[2] as int) == 0x40000 * (d[0] as int) + 0x1000 * (d[1] as int) + 0x40 * (d[2] as int) + (d[3] as int)
  {
  }

  // A last group of one byte is two digits, of two bytes three, with zero bits behind.
  lemma LastBits(b: Bytes)
    requires |b| < 3
    ensures var d := ToDigits(b);
            && (|b| == 0 ==> d == [])
            && (|b| == 1 ==> |d| == 2 && 0x10 * (b[0] as int) == 0x40 * (d[0] as int) + (d[1] as int))
            && (|b| == 2 ==> |d| == 3 && 4 * (0x100 * (b[0] as int) + (b[1] as int)) == 0x1000 * (d[0] as int) + 0x40 * (d[1] as int) + (d[2] as int))
  {
  }

  // The text is padded to a multiple of four characters.
  lemma {:induction false} EncodedLength(b: Bytes)
    ensures |Encode(b)| == (|b| + 2) / 3 * 4
  {
    DigitCount(b);
    LetterCount(ToDigits(b));
  }

  lemma {:induction false} DigitCount(b: Bytes)
    ensures |ToDigits(b)| == |b| / 3 * 4 + (if |b| % 3 == 0 then 0 else |b| % 3 + 1)
  {
    if |b| > 2 {
      DigitCount(b[3..]);
    }
  }

  lemma {:induction false} LetterCount(d: seq<Digit>)
    ensures |Letters(d)| == |d| && forall i :: 0 <= i < |d| ==> Letters(d)[i] == Letter(d[i])
  {
    if d != [] {
      LetterCount(d[1..]);
    }
  }
}
