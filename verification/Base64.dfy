// Base64 and base64url (sections 4 and 5 of RFC 4648), with the lenient decoding of Node's
// Buffer: both alphabets are accepted, characters outside them are skipped.
module Base64 {
  import opened Prelude

  type byte = x: int | 0 <= x < 256
  type sextet = x: int | 0 <= x < 64
  type Text = seq<byte>

  // ----- Bytes and six-bit groups -----

  function Sextets(bytes: Text): seq<sextet> {
    if |bytes| == 0 then []
    else if |bytes| == 1 then [bytes[0] / 4, bytes[0] % 4 * 16]
    else if |bytes| == 2 then [bytes[0] / 4, bytes[0] % 4 * 16 + bytes[1] / 16, bytes[1] % 16 * 4]
    else [bytes[0] / 4, bytes[0] % 4 * 16 + bytes[1] / 16, bytes[1] % 16 * 4 + bytes[2] / 64, bytes[2] % 64]
         + Sextets(bytes[3..])
  }

  // Bits left over at the end that do not fill a byte are dropped.
  function Bytes(digits: seq<sextet>): Text {
    if |digits| < 2 then []
    else if |digits| == 2 then [First(digits[0], digits[1])]
    else if |digits| == 3 then [First(digits[0], digits[1]), Second(digits[1], digits[2])]
    else [First(digits[0], digits[1]), Second(digits[1], digits[2]), Third(digits[2], digits[3])] + Bytes(digits[4..])
  }

  function First(d0: int, d1: int): byte
    requires 0 <= d0 < 64 && 0 <= d1 < 64
  {
    d0 * 4 + d1 / 16
  }

  function Second(d1: int, d2: int): byte
    requires 0 <= d1 < 64 && 0 <= d2 < 64
  {
    d1 % 16 * 16 + d2 / 4
  }

  function Third(d2: int, d3: int): byte
    requires 0 <= d2 < 64 && 0 <= d3 < 64
  {
    d2 % 4 * 64 + d3
  }

  lemma SextetsOfThree(a: byte, b: byte, c: byte)
    ensures First(a / 4, a % 4 * 16 + b / 16) == a
    ensures Second(a % 4 * 16 + b / 16, b % 16 * 4 + c / 64) == b
    ensures Third(b % 16 * 4 + c / 64, c % 64) == c
  {
  }

  lemma {:induction false} BytesInvertSextets(bytes: Text)
    ensures Bytes(Sextets(bytes)) == bytes
  {
    if |bytes| >= 3 {
      BytesInvertSextets(bytes[3..]);
      assert Sextets(bytes)[4..] == Sextets(bytes[3..]);
      SextetsOfThree(bytes[0], bytes[1], bytes[2]);
      assert bytes == [bytes[0], bytes[1], bytes[2]] + bytes[3..];
    }
  }

  // ----- Six-bit groups and characters -----

  datatype Alphabet = Standard | Url

  function DigitChar(d: sextet, alphabet: Alphabet): char {
    if d < 26 then 'A' + d as char
    else if d < 52 then 'a' + (d - 26) as char
    else if d < 62 then '0' + (d - 52) as char
    else if d == 62 then (if alphabet == Standard then '+' else '-')
    else (if alphabet == Standard then '/' else '_')
  }

  // Tables 1 and 2 of RFC 4648.
  const UPPER := "ABCDEFGHIJKLMNOPQRSTUVWXYZ"
  const LOWER := "abcdefghijklmnopqrstuvwxyz"
  const STANDARD_TABLE := UPPER + LOWER + "0123456789+/"
  const URL_TABLE := UPPER + LOWER + "0123456789-_"

  lemma DigitsAreFromTheTables(d: sextet)
    ensures |STANDARD_TABLE| == |URL_TABLE| == 64
    ensures DigitChar(d, Standard) == STANDARD_TABLE[d]
    ensures DigitChar(d, Url) == URL_TABLE[d]
  {
    if d < 26 {
      Letters(d);
    } else if d < 52 {
      Letters(d - 26);
    } else {
      LastTwelve(d - 52);
    }
  }

  lemma LastTwelve(d: nat)
    requires d < 12
    ensures STANDARD_TABLE[d + 52] == "0123456789+/"[d] == DigitChar(d + 52, Standard)
    ensures URL_TABLE[d + 52] == "0123456789-_"[d] == DigitChar(d + 52, Url)
  {
  }

  lemma Letters(d: nat)
    requires d < 26
    ensures UPPER[d] == 'A' + d as char && LOWER[d] == 'a' + d as char
  {
  }

  function DigitOf(c: char): Option<sextet> {
    if 'A' <= c <= 'Z' then Some((c - 'A') as int)
    else if 'a' <= c <= 'z' then Some((c - 'a') as int + 26)
    else if '0' <= c <= '9' then Some((c - '0') as int + 52)
    else if c == '+' || c == '-' then Some(62)
    else if c == '/' || c == '_' then Some(63)
    else None
  }

  lemma DigitRoundTrip(d: sextet, alphabet: Alphabet)
    ensures DigitOf(DigitChar(d, alphabet)) == Some(d)
  {
  }

  function Chars(digits: seq<sextet>, alphabet: Alphabet): string {
    seq(|digits|, i requires 0 <= i < |digits| => DigitChar(digits[i], alphabet))
  }

  function Digits(text: string): seq<sextet> {
    if text == [] then [] else
      (match DigitOf(text[0]) case Some(d) => [d] case None => []) + Digits(text[1..])
  }

  lemma {:induction false} DigitsOfChars(digits: seq<sextet>, alphabet: Alphabet, padding: string)
    requires forall i :: 0 <= i < |padding| ==> padding[i] == '='
    ensures Digits(Chars(digits, alphabet) + padding) == digits
  {
    var text := Chars(digits, alphabet) + padding;
    if digits == [] {
      assert text == padding;
      PaddingHasNoDigits(padding);
    } else {
      DigitRoundTrip(digits[0], alphabet);
      DigitsOfChars(digits[1..], alphabet, padding);
      assert text[0] == DigitChar(digits[0], alphabet);
      assert text[1..] == Chars(digits[1..], alphabet) + padding;
      assert Digits(text) == [digits[0]] + digits[1..];
    }
  }

  lemma {:induction false} PaddingHasNoDigits(padding: string)
    requires forall i :: 0 <= i < |padding| ==> padding[i] == '='
    ensures Digits(padding) == []
  {
    if padding != [] {
      PaddingHasNoDigits(padding[1..]);
    }
  }

  // ----- The codec -----

  // Only the standard form is padded.
  function Padding(digits: nat, alphabet: Alphabet): string {
    if alphabet == Url || digits % 4 == 0 then "" else if digits % 4 == 2 then "==" else "="
  }

  function Encode(bytes: Text, alphabet: Alphabet): (text: string)
    ensures text == "" <==> bytes == []
  {
    var digits := Sextets(bytes);
    Chars(digits, alphabet) + Padding(|digits|, alphabet)
  }

  function Decode(text: string): Text {
    Bytes(Digits(text))
  }

  lemma DecodeInvertsEncode(bytes: Text, alphabet: Alphabet)
    ensures Decode(Encode(bytes, alphabet)) == bytes
  {
    var digits := Sextets(bytes);
    DigitsOfChars(digits, alphabet, Padding(|digits|, alphabet));
    BytesInvertSextets(bytes);
  }

  lemma {:induction false} SextetCount(bytes: Text) returns (groups: nat, left: nat)
    ensures left < 3 && |bytes| == 3 * groups + left
    ensures |Sextets(bytes)| == 4 * groups + (if left == 0 then 0 else left + 1)
  {
    if |bytes| < 3 {
      groups, left := 0, |bytes|;
    } else {
      groups, left := SextetCount(bytes[3..]);
      groups := groups + 1;
    }
  }

  // Digits, most significant first.
  function Number(digits: seq<int>, base: nat): int {
    if digits == [] then 0 else Number(digits[..|digits| - 1], base) * base + digits[|digits| - 1]
  }

  lemma Numbers(w: int, x: int, y: int, z: int, base: nat)
    ensures Number([w], base) == w && Number([w, x], base) == w * base + x
    ensures Number([w, x, y], base) == (w * base + x) * base + y
    ensures Number([w, x, y, z], base) == ((w * base + x) * base + y) * base + z
  {
    assert [w][..0] == [] && [w, x][..1] == [w] && [w, x, y][..2] == [w, x] && [w, x, y, z][..3] == [w, x, y];
  }

  // A full group is the same number in bytes and in digits; a last group of one or two bytes
  // is, with the zero bits it is filled up with.
  lemma GroupsAreNumbers(a: byte, b: byte, c: byte)
    ensures var d := Sextets([a, b, c]);
            |d| == 4 && Number([d[0], d[1], d[2], d[3]], 64) == Number([a, b, c], 256)
    ensures var d := Sextets([a, b]); |d| == 3 && Number([d[0], d[1], d[2]], 64) == Number([a, b], 256) * 4
    ensures var d := Sextets([a]); |d| == 2 && Number([d[0], d[1]], 64) == Number([a], 256) * 16
  {
    assert [a, b, c][3..] == [];
    Numbers(a, b, c, 0, 256);
    Numbers(a / 4, a % 4 * 16 + b / 16, b % 16 * 4 + c / 64, c % 64, 64);
    Numbers(a / 4, a % 4 * 16 + b / 16, b % 16 * 4, 0, 64);
    Numbers(a / 4, a % 4 * 16, 0, 0, 64);
    assert a == a / 4 * 4 + a % 4 && b == b / 16 * 16 + b % 16 && c == c / 64 * 64 + c % 64;
  }

  lemma GroupByGroup(a: byte, b: byte, c: byte, bytes: Text)
    ensures Sextets([a, b, c] + bytes) == Sextets([a, b, c]) + Sextets(bytes)
  {
    assert ([a, b, c] + bytes)[3..] == bytes && [a, b, c][3..] == [];
  }

  // The url form needs no quoting: letters, digits, '-' and '_', and no padding.
  lemma UrlFormIsSafe(bytes: Text, i: nat)
    requires i < |Encode(bytes, Url)|
    ensures var c := Encode(bytes, Url)[i];
            'A' <= c <= 'Z' || 'a' <= c <= 'z' || '0' <= c <= '9' || c == '-' || c == '_'
  {
    assert Encode(bytes, Url) == Chars(Sextets(bytes), Url);
  }

  // The standard encoding comes in groups of four characters, the last one padded.
  lemma StandardLength(bytes: Text)
    ensures |Encode(bytes, Standard)| == (|bytes| + 2) / 3 * 4
  {
    var groups, left := SextetCount(bytes);
    PaddedCount(groups, left);
  }

  lemma PaddedCount(groups: nat, left: nat)
    requires left < 3
    ensures var digits := 4 * groups + (if left == 0 then 0 else left + 1);
            digits + |Padding(digits, Standard)| == 4 * (groups + if left == 0 then 0 else 1)
    ensures (3 * groups + left + 2) / 3 == groups + if left == 0 then 0 else 1
  {
  }
}
