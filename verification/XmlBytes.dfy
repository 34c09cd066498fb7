/** How the UTF-8 tokenizer classifies bytes. */
module XmlBytes {
  import opened Bytes

  const TAB: byte := 9
  const LF: byte := 0x0A
  const CR: byte := 0x0D
  const SPACE: byte := 0x20
  const QUOT: byte := 0x22
  const NUM: byte := 0x23
  const AMP: byte := 0x26
  const APOS: byte := 0x27
  const SOL: byte := 0x2F
  const SEMI: byte := 0x3B
  const LT: byte := 0x3C
  const EQUALS: byte := 0x3D
  const GT: byte := 0x3E
  const RSQB: byte := 0x5D

  /** White space other than line ends. */
  predicate IsS(b: byte)
  {
    b == SPACE || b == TAB
  }

  predicate IsLineEnd(b: byte)
  {
    b == CR || b == LF
  }

  predicate IsDecimal(b: byte)
  {
    0x30 <= b <= 0x39
  }

  predicate IsHexLetter(b: byte)
  {
    0x41 <= b <= 0x46 || 0x61 <= b <= 0x66
  }

  /** ASCII letters and the underscore. */
  predicate IsNameStart(b: byte)
  {
    0x41 <= b <= 0x5A || 0x61 <= b <= 0x7A || b == 0x5F
  }

  /** ASCII characters of names: also digits, the full stop and the hyphen. */
  predicate IsNameByte(b: byte)
  {
    IsNameStart(b) || IsDecimal(b) || b == 0x2E || b == 0x2D
  }

  /** The first byte of a character of two, three or four bytes. */
  predicate IsLead(b: byte)
  {
    0xC0 <= b < 0xF5
  }

  /** How many bytes the character that starts with a byte has. */
  function CharLength(b: byte): (n: nat)
    ensures 1 <= n <= 4 && (n > 1 <==> IsLead(b))
  {
    if !IsLead(b) then 1 else if b < 0xE0 then 2 else if b < 0xF0 then 3 else 4
  }

  /** Bytes that no character starts with. */
  predicate IsBad(b: byte)
  {
    (b < 0x20 && b != TAB && !IsLineEnd(b)) || 0x80 <= b < 0xC0 || b >= 0xF5
  }

  predicate IsTrail(b: byte)
  {
    0x80 <= b < 0xC0
  }

  /** The well-formedness checks on characters of two, three and four bytes. */
  predicate Invalid2(a: byte, b: byte)
  {
    a < 0xC2 || !IsTrail(b)
  }

  predicate Invalid3(a: byte, b: byte, c: byte)
  {
    || c < 0x80
    || (if a == 0xEF && b == 0xBF then c > 0xBD else c >= 0xC0)
    || (if a == 0xE0 then b < 0xA0 || b >= 0xC0
        else b < 0x80 || if a == 0xED then b > 0x9F else b >= 0xC0)
  }

  predicate Invalid4(a: byte, b: byte, c: byte, d: byte)
  {
    || !IsTrail(d) || !IsTrail(c)
    || (if a == 0xF0 then b < 0x90 || b >= 0xC0
        else b < 0x80 || if a == 0xF4 then b > 0x8F else b >= 0xC0)
  }

  /** A character of several bytes that is not well formed. */
  predicate InvalidChar(b: seq<byte>, i: nat)
    requires i < |b| && IsLead(b[i]) && i + CharLength(b[i]) <= |b|
  {
    match CharLength(b[i])
    case 2 => Invalid2(b[i], b[i + 1])
    case 3 => Invalid3(b[i], b[i + 1], b[i + 2])
    case _ => CharLength(b[i]) == 4 && Invalid4(b[i], b[i + 1], b[i + 2], b[i + 3])
  }

  /** The bytes of a character number. */
  function Utf8(c: nat): (s: seq<byte>)
    requires c < 0x110000
    ensures |s| > 0 && (c != 0x20 ==> forall i :: 0 <= i < |s| ==> s[i] != 0x20)
  {
    if c < 0x80 then [c]
    else if c < 0x800 then [0xC0 + c / 0x40, 0x80 + c % 0x40]
    else if c < 0x10000 then [0xE0 + c / 0x1000, 0x80 + c / 0x40 % 0x40, 0x80 + c % 0x40]
    else [0xF0 + c / 0x40000, 0x80 + c / 0x1000 % 0x40, 0x80 + c / 0x40 % 0x40, 0x80 + c % 0x40]
  }
}
