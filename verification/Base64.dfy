/**
 Base64 (sections 4 and 5 of RFC 4648) as the front end's Buffer bundle reads and writes it.
 Characters are UTF-16 code units.
 */
module Base64 {
  import opened Common

  type Sextet = x: int | 0 <= x < 64

  const PAD: CodeUnit := 61    // '='
  const PLUS: CodeUnit := 43
  const SLASH: CodeUnit := 47
  const MINUS: CodeUnit := 45
  const UNDERSCORE: CodeUnit := 95

  // ------------------------------------------------------------------ the alphabet

  /** Table 1 of RFC 4648: A-Z, a-z, 0-9, '+', '/'. */
  function Lookup(n: Sextet): (c: CodeUnit)
    ensures c != PAD
  {
    var n: int := n as int;
    var c: int := if n < 26 then 65 + n else if n < 52 then 71 + n else if n < 62 then n - 4 else if n == 62 then 43 else 47;
    c
  }

  predicate IsUpper(c: CodeUnit) { 65 <= c <= 90 }
  predicate IsLower(c: CodeUnit) { 97 <= c <= 122 }
  predicate IsDigit(c: CodeUnit) { 48 <= c <= 57 }

  /** What `base64clean` keeps: both alphabets. */
  predicate InAlphabet(c: CodeUnit) {
    IsUpper(c) || IsLower(c) || IsDigit(c) || c in {PLUS, SLASH, MINUS, UNDERSCORE}
  }

  predicate InStandardAlphabet(c: CodeUnit) { InAlphabet(c) && c != MINUS && c != UNDERSCORE }

  /** The reverse table: both alphabets, and 0 (what `undefined` becomes under shifts) elsewhere. */
  function RevLookup(c: CodeUnit): Sextet {
    var c: int := c as int;
    var n: int :=
      if 65 <= c <= 90 then c - 65
      else if 97 <= c <= 122 then c - 71
      else if 48 <= c <= 57 then c + 4
      else if c == 43 || c == 45 then 62
      else if c == 47 || c == 95 then 63
      else 0;
    n
  }

  lemma LookupInverse(n: Sextet)
    ensures RevLookup(Lookup(n)) == n && InStandardAlphabet(Lookup(n))
  {
  }

  lemma RevLookupInverse(c: CodeUnit)
    requires InStandardAlphabet(c)
    ensures Lookup(RevLookup(c)) == c
  {
  }

  // ------------------------------------------------------------------ reference definitions

  /** Section 4 of RFC 4648: three bytes as four characters of six bits each. */
  function Quad(a: Byte, b: Byte, c: Byte): (q: seq<CodeUnit>)
    ensures |q| == 4
  {
    [Lookup(a / 4), Lookup(a % 4 * 16 + b / 16), Lookup(b % 16 * 4 + c / 64), Lookup(c % 64)]
  }

  // A final group of one or two bytes is filled up with zero bits and padded.
  function LastOne(a: Byte): seq<CodeUnit> { [Lookup(a / 4), Lookup(a % 4 * 16), PAD, PAD] }

  function LastTwo(a: Byte, b: Byte): seq<CodeUnit> {
    [Lookup(a / 4), Lookup(a % 4 * 16 + b / 16), Lookup(b % 16 * 4), PAD]
  }

  function Encode(b: seq<Byte>): seq<CodeUnit> {
    if |b| == 0 then []
    else if |b| == 1 then LastOne(b[0])
    else if |b| == 2 then LastTwo(b[0], b[1])
    else Quad(b[0], b[1], b[2]) + Encode(b[3..])
  }

  // The bytes that sextets x, y, z, w hold in order.
  function Byte0(x: Sextet, y: Sextet): Byte { var r: int := x as int * 4 + y as int / 16; r }
  function Byte1(y: Sextet, z: Sextet): Byte { var r: int := y as int % 16 * 16 + z as int / 4; r }
  function Byte2(z: Sextet, w: Sextet): Byte { var r: int := z as int % 4 * 64 + w as int; r }

  /** The whole bytes held by a sequence of characters. */
  function DecodeChars(t: seq<CodeUnit>): seq<Byte> {
    if |t| < 2 then []
    else if |t| == 2 then [Byte0(RevLookup(t[0]), RevLookup(t[1]))]
    else if |t| == 3 then [Byte0(RevLookup(t[0]), RevLookup(t[1])), Byte1(RevLookup(t[1]), RevLookup(t[2]))]
    else [Byte0(RevLookup(t[0]), RevLookup(t[1])), Byte1(RevLookup(t[1]), RevLookup(t[2])),
          Byte2(RevLookup(t[2]), RevLookup(t[3]))] + DecodeChars(t[4..])
  }

  /** The part of a string before its first '='. */
  function BeforePad(s: seq<CodeUnit>): (t: seq<CodeUnit>)
    ensures t <= s && PAD !in t && (|t| < |s| ==> s[|t|] == PAD)
  {
    if s == [] || s[0] == PAD then [] else [s[0]] + BeforePad(s[1..])
  }

  function Pads(n: nat): (p: seq<CodeUnit>)
    ensures |p| == n && forall i :: 0 <= i < n ==> p[i] == PAD
  {
    if n == 0 then [] else [PAD] + Pads(n - 1)
  }

  // ------------------------------------------------------------------ what toByteArray returns

  datatype Error = LengthNotMultipleOf4 | NegativeArrayLength

  function PlaceHolders(s: seq<CodeUnit>): int {
    var validLen := |BeforePad(s)|;
    if validLen == |s| then 0 else 4 - validLen % 4
  }

  /** The characters that are decoded: the last quad is skipped when '=' follows a whole number of quads. */
  function Payload(s: seq<CodeUnit>): (t: seq<CodeUnit>)
    ensures t <= s
  {
    var t := BeforePad(s);
    if PlaceHolders(s) == 4 && t != [] then t[..|t| - 4] else t
  }

  function ToBytes(s: seq<CodeUnit>): Result<seq<Byte>, Error> {
    if |s| % 4 != 0 then Err(LengthNotMultipleOf4)
    else if PlaceHolders(s) == 4 && BeforePad(s) == [] then Err(NegativeArrayLength)
    else Ok(DecodeChars(Payload(s)) + if PlaceHolders(s) == 4 then [0, 0] else [])
  }

  // ------------------------------------------------------------------ examples from the standard

  /** Table 1 of RFC 4648, written out. */
  lemma LookupIsTable(n: int)
    requires 0 <= n < 64
    ensures n < 26 ==> Lookup(n) == 'A' as int + n
    ensures 26 <= n < 52 ==> Lookup(n) == 'a' as int + (n - 26)
    ensures 52 <= n < 62 ==> Lookup(n) == '0' as int + (n - 52)
    ensures Lookup(62) == '+' as int && Lookup(63) == '/' as int
  {
  }

  /** The URL-safe alphabet (table 2) differs in the last two digits only. */
  lemma UrlSafeDigits()
    ensures RevLookup('-' as int) == 62 && RevLookup('_' as int) == 63
  {
  }

  /** Section 10 of RFC 4648: "f", "fo" and "foo". */
  lemma ExamplesOfRfc4648()
    ensures Encode([0x66]) == ['Z' as int, 'g' as int, '=' as int, '=' as int]
    ensures Encode([0x66, 0x6F]) == ['Z' as int, 'm' as int, '8' as int, '=' as int]
    ensures Encode([0x66, 0x6F, 0x6F]) == ['Z' as int, 'm' as int, '9' as int, 'v' as int]
  {
    var foo: seq<Byte> := [0x66, 0x6F, 0x6F];
    assert foo[3..] == [] && Encode(foo) == Quad(0x66, 0x6F, 0x6F) + [];
  }
}
