/** The characters of XML, as numbers and as bytes: which bytes the tokenizer takes for a character. */
module XmlChars {
  import opened Wrappers
  import opened Bytes
  import opened XmlBytes
  import opened AttributeTokens

  type CharNumber = c: nat | c < 0x110000

  /** The characters of section 2.2 of XML 1.0. */
  predicate XmlChar(c: int)
  {
    || c == 9 || c == 0x0A || c == 0x0D || 0x20 <= c <= 0xD7FF || 0xE000 <= c <= 0xFFFD
    || 0x10000 <= c <= 0x10FFFF
  }

  /** A number given by four digits to the base 64. */
  function Number(a: int, b: int, c: int, d: int): int
  {
    262144 * a + 4096 * b + 64 * c + d
  }

  /** The bits of a byte behind a mark. */
  function Behind(mark: int, b: byte): int
  {
    var v: int := b;
    v - mark
  }

  /** The number that one to four bytes hold behind the marks of section 3 of RFC 3629. */
  function Decode(s: seq<byte>): int
    requires 1 <= |s| <= 4
  {
    match |s|
    case 1 => s[0]
    case 2 => Number(0, 0, Behind(0xC0, s[0]), Behind(0x80, s[1]))
    case 3 => Number(0, Behind(0xE0, s[0]), Behind(0x80, s[1]), Behind(0x80, s[2]))
    case _ => Number(Behind(0xF0, s[0]), Behind(0x80, s[1]), Behind(0x80, s[2]), Behind(0x80, s[3]))
  }

  /** How many bytes the first byte of a character announces, by section 3 of RFC 3629. */
  function Announced(b: byte): nat
  {
    if 0xC0 <= b <= 0xDF then 2 else if 0xE0 <= b <= 0xEF then 3 else if 0xF0 <= b <= 0xF4 then 4 else 1
  }

  /** The bytes of some characters. */
  function AllUtf8(chars: seq<CharNumber>): seq<byte>
  {
    if chars == [] then [] else Utf8(chars[0]) + AllUtf8(chars[1..])
  }

  /** Bytes that the tokenizer takes for one character. */
  predicate WellFormed(s: seq<byte>)
  {
    && s != [] && |s| == CharLength(s[0]) && !IsBad(s[0])
    && (IsLead(s[0]) ==> !InvalidChar(s, 0))
  }

  lemma Digits(c: nat)
    ensures c == Number(c / 262144, c / 4096 % 64, c / 64 % 64, c % 64)
    ensures c < 262144 ==> c / 262144 == 0 && c / 4096 % 64 == c / 4096
    ensures c < 4096 ==> c / 4096 == 0 && c / 64 % 64 == c / 64
  {
    assert c / 4096 == c / 64 / 64 && c / 262144 == c / 4096 / 64;
  }

  lemma DigitsAre(n: int, a: int, b: int, c: int, d: int)
    requires n == Number(a, b, c, d) && 0 <= a && 0 <= b < 64 && 0 <= c < 64 && 0 <= d < 64
    ensures n / 262144 == a && n / 4096 == 64 * a + b && n / 4096 % 64 == b
    ensures n / 64 == 4096 * a + 64 * b + c && n / 64 % 64 == c && n % 64 == d
  {
    assert n / 4096 == n / 64 / 64 && n / 262144 == n / 4096 / 64;
  }

  /** The bytes of a character hold its number. */
  lemma Utf8Holds(c: nat)
    requires c < 0x110000
    ensures 1 <= |Utf8(c)| <= 4 && Decode(Utf8(c)) == c
  {
    Digits(c);
  }

  /** The bytes of a number are well formed exactly when it is that of a character. */
  lemma Utf8WellFormed(c: nat)
    requires c < 0x110000
    ensures WellFormed(Utf8(c)) <==> XmlChar(c)
  {
    Digits(c);
  }

  /** All well-formed bytes are those of a character. */
  lemma WellFormedHolds(s: seq<byte>)
    requires WellFormed(s)
    ensures XmlChar(Decode(s)) && Utf8(Decode(s)) == s
  {
    var n := Decode(s);
    if |s| == 2 {
      DigitsAre(n, 0, 0, Behind(0xC0, s[0]), Behind(0x80, s[1]));
    } else if |s| == 3 {
      DigitsAre(n, 0, Behind(0xE0, s[0]), Behind(0x80, s[1]), Behind(0x80, s[2]));
    } else if |s| == 4 {
      DigitsAre(n, Behind(0xF0, s[0]), Behind(0x80, s[1]), Behind(0x80, s[2]), Behind(0x80, s[3]));
    }
  }

  /** A reference by number is refused exactly when the number is none of a character. */
  lemma CharOfIff(v: nat)
    ensures CharOf(v) == if XmlChar(v) then Some(v) else None
  {
  }
}
