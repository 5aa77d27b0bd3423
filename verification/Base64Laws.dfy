/** The Buffer bundle's `base64clean`, and the laws of Base64 reading and writing. */
module Base64Laws {
  import opened Common
  import opened Base64
  import Base64Codec

  // ------------------------------------------------------------------ decode undoes encode

  /** The characters of an encoding without its padding. */
  function Chars(b: seq<Byte>): (t: seq<CodeUnit>)
    ensures forall i :: 0 <= i < |t| ==> InStandardAlphabet(t[i])
  {
    if |b| == 0 then []
    else if |b| == 1 then LastOne(b[0])[..2]
    else if |b| == 2 then LastTwo(b[0], b[1])[..3]
    else Quad(b[0], b[1], b[2]) + Chars(b[3..])
  }

  function PadCount(b: seq<Byte>): nat { if |b| % 3 == 0 then 0 else 3 - |b| % 3 }

  lemma {:induction false} CharsLength(b: seq<Byte>)
    ensures |Chars(b)| == |b| / 3 * 4 + if |b| % 3 == 0 then 0 else |b| % 3 + 1
  {
    if |b| >= 3 {
      CharsLength(b[3..]);
    }
  }

  lemma {:induction false} EncodeChars(b: seq<Byte>)
    ensures Encode(b) == Chars(b) + Pads(PadCount(b))
  {
    if |b| >= 3 {
      EncodeChars(b[3..]);
      hide Lookup, Quad, LastOne, LastTwo, Pads;
      assert PadCount(b[3..]) == PadCount(b);
      Associative(Quad(b[0], b[1], b[2]), Chars(b[3..]), Pads(PadCount(b)));
    } else {
      RemainderChars(b);
    }
  }

  lemma {:induction false} RemainderChars(b: seq<Byte>)
    requires |b| < 3
    ensures Encode(b) == Chars(b) + Pads(PadCount(b))
  {
    hide LastOne, LastTwo, Quad, Pads;
    FewPads();
    if |b| == 1 {
      OneEndsInPads(b[0]);
    } else if |b| == 2 {
      TwoEndInPad(b[0], b[1]);
    }
  }

  lemma FewPads()
    ensures Pads(0) == [] && Pads(1) == [PAD] && Pads(2) == [PAD, PAD]
  {
  }

  lemma {:induction false} OneEndsInPads(a: Byte)
    ensures |LastOne(a)| == 4 && LastOne(a) == LastOne(a)[..2] + [PAD, PAD]
  {
    hide Lookup;
  }

  lemma {:induction false} TwoEndInPad(a: Byte, b: Byte)
    ensures |LastTwo(a, b)| == 4 && LastTwo(a, b) == LastTwo(a, b)[..3] + [PAD]
  {
    hide Lookup;
  }

  lemma FillIsLeast(n: nat, k: nat)
    requires k <= Fill(n)
    ensures (n + k) % 4 == 0 <==> k == Fill(n)
  {
  }

  lemma FillOfChars(q: nat, r: nat)
    requires r < 3
    ensures Fill(q * 4 + if r == 0 then 0 else r + 1) == if r == 0 then 0 else 3 - r
  {
  }

  // The padding completes the last quad.
  lemma {:induction false} PadCountFills(b: seq<Byte>)
    ensures PadCount(b) == Fill(|Chars(b)|)
    ensures |Encode(b)| % 4 == 0
  {
    CharsLength(b);
    FillOfChars(|b| / 3, |b| % 3);
    FillIsLeast(|Chars(b)|, PadCount(b));
    EncodeChars(b);
  }

  /** How many '=' complete a quad. */
  function Fill(n: nat): nat { if n % 4 == 0 then 0 else 4 - n % 4 }

  lemma {:induction false} DecodeCharsOf(b: seq<Byte>)
    ensures DecodeChars(Chars(b)) == b
  {
    hide Lookup, RevLookup, Byte0, Byte1, Byte2;
    if |b| >= 3 {
      var q := Quad(b[0], b[1], b[2]);
      DecodeCharsOf(b[3..]);
      assert (q + Chars(b[3..]))[4..] == Chars(b[3..]);
      QuadInverse(b[0], b[1], b[2]);
    } else if |b| == 2 {
      QuadInverse(b[0], b[1], 0);
    } else if |b| == 1 {
      QuadInverse(b[0], 0, 0);
    }
  }

  lemma {:induction false} QuadInverse(a: Byte, b: Byte, c: Byte)
    ensures var q := Quad(a, b, c);
            && Byte0(RevLookup(q[0]), RevLookup(q[1])) == a
            && Byte1(RevLookup(q[1]), RevLookup(q[2])) == b
            && Byte2(RevLookup(q[2]), RevLookup(q[3])) == c
  {
    LookupInverse(a / 4);
    LookupInverse(a % 4 * 16 + b / 16);
    LookupInverse(b % 16 * 4 + c / 64);
    LookupInverse(c % 64);
  }

  lemma {:induction false} BeforePadOf(t: seq<CodeUnit>, n: nat)
    requires PAD !in t
    ensures BeforePad(t + Pads(n)) == t
  {
    var s := t + Pads(n);
    if t != [] {
      assert s[1..] == t[1..] + Pads(n);
      BeforePadOf(t[1..], n);
    }
  }

  lemma {:induction false} EncodingParts(b: seq<Byte>)
    ensures BeforePad(Encode(b)) == Chars(b)
    ensures |Encode(b)| % 4 == 0 && PlaceHolders(Encode(b)) == PadCount(b)
  {
    EncodeChars(b);
    PadCountFills(b);
    assert PAD !in Chars(b);
    BeforePadOf(Chars(b), PadCount(b));
  }

  lemma {:induction false} WholeDecodes(s: seq<CodeUnit>, t: seq<CodeUnit>)
    requires t == BeforePad(s) && |s| % 4 == 0 && PlaceHolders(s) != 4
    ensures ToBytes(s) == Ok(DecodeChars(t))
  {
    assert DecodeChars(t) + [] == DecodeChars(t);
  }

  /** Decoding undoes encoding, for every byte sequence. */
  lemma {:induction false} DecodeEncode(b: seq<Byte>)
    ensures ToBytes(Encode(b)) == Ok(b)
  {
    EncodingParts(b);
    DecodeCharsOf(b);
    WholeDecodes(Encode(b), Chars(b));
  }

  // ------------------------------------------------------------------ which strings survive

  /** Section 3.5 of RFC 4648: the bits a final group does not use are zero. */
  predicate TrailingBitsZero(t: seq<CodeUnit>) {
    && (|t| % 4 == 2 ==> RevLookup(t[|t| - 1]) % 16 == 0)
    && (|t| % 4 == 3 ==> RevLookup(t[|t| - 1]) % 4 == 0)
  }

  /** The strings section 4 of RFC 4648 allows an encoder to produce. */
  predicate Canonical(s: seq<CodeUnit>) {
    var t := BeforePad(s);
    && |s| % 4 == 0
    && PlaceHolders(s) <= 2
    && s == t + Pads(PlaceHolders(s))
    && (forall i :: 0 <= i < |t| ==> InStandardAlphabet(t[i]))
    && TrailingBitsZero(t)
  }

  lemma {:induction false} CharsOfDecoded(t: seq<CodeUnit>)
    requires |t| % 4 != 1 && TrailingBitsZero(t)
    requires forall i :: 0 <= i < |t| ==> InStandardAlphabet(t[i])
    ensures Chars(DecodeChars(t)) == t
  {
    hide Lookup, RevLookup, InStandardAlphabet, Byte0, Byte1, Byte2, Quad;
    LookupInverse(0);
    if |t| >= 4 {
      var tail := t[4..];
      TailStaysWhole(t);
      CharsOfDecoded(tail);
      SextetsInverse(t[0], t[1], t[2], t[3]);
      DecodedQuad(t);
      assert Chars(DecodeChars(t)) == [t[0], t[1], t[2], t[3]] + tail;
      assert t == [t[0], t[1], t[2], t[3]] + tail;
    } else if |t| == 3 {
      var x, y, z := RevLookup(t[0]), RevLookup(t[1]), RevLookup(t[2]);
      assert DecodeChars(t) == [Byte0(x, y), Byte1(y, z)];
      SextetsInverse(t[0], t[1], t[2], Lookup(0));
      assert t == [t[0], t[1], t[2]];
    } else if |t| == 2 {
      assert DecodeChars(t) == [Byte0(RevLookup(t[0]), RevLookup(t[1]))];
      SextetsInverse(t[0], t[1], Lookup(0), Lookup(0));
      assert t == [t[0], t[1]];
    } else {
      assert DecodeChars(t) == [];
    }
  }

  lemma TailStaysWhole(t: seq<CodeUnit>)
    requires |t| >= 4
    ensures |t[4..]| % 4 == |t| % 4
    ensures TrailingBitsZero(t) ==> TrailingBitsZero(t[4..])
  {
  }

  lemma {:induction false} DecodedQuad(t: seq<CodeUnit>)
    requires |t| >= 4
    ensures var x, y, z, w := RevLookup(t[0]), RevLookup(t[1]), RevLookup(t[2]), RevLookup(t[3]);
            Chars(DecodeChars(t)) == Quad(Byte0(x, y), Byte1(y, z), Byte2(z, w)) + Chars(DecodeChars(t[4..]))
  {
    assert DecodeChars(t)[3..] == DecodeChars(t[4..]);
  }

  lemma SextetBits(x: int, y: int, z: int, w: int)
    requires 0 <= x < 64 && 0 <= y < 64 && 0 <= z < 64 && 0 <= w < 64
    ensures var b0, b1, b2 := x * 4 + y / 16, y % 16 * 16 + z / 4, z % 4 * 64 + w;
            && b0 / 4 == x && b0 % 4 * 16 == y / 16 * 16 && b0 % 4 * 16 + b1 / 16 == y
            && b1 % 16 * 4 == z / 4 * 4 && b1 % 16 * 4 + b2 / 64 == z && b2 % 64 == w
  {
  }

  lemma {:induction false} SextetsInverse(c0: CodeUnit, c1: CodeUnit, c2: CodeUnit, c3: CodeUnit)
    requires InStandardAlphabet(c0) && InStandardAlphabet(c1) && InStandardAlphabet(c2) && InStandardAlphabet(c3)
    ensures var x, y, z, w := RevLookup(c0), RevLookup(c1), RevLookup(c2), RevLookup(c3);
            && Quad(Byte0(x, y), Byte1(y, z), Byte2(z, w)) == [c0, c1, c2, c3]
            && (z % 4 == 0 ==> LastTwo(Byte0(x, y), Byte1(y, z))[..3] == [c0, c1, c2])
            && (y % 16 == 0 ==> LastOne(Byte0(x, y))[..2] == [c0, c1])
  {
    hide Lookup, RevLookup, InStandardAlphabet;
    SextetBits(RevLookup(c0), RevLookup(c1), RevLookup(c2), RevLookup(c3));
    RevLookupInverse(c0);
    RevLookupInverse(c1);
    RevLookupInverse(c2);
    RevLookupInverse(c3);
  }

  /** Re-encoding the decoded bytes gives the string back exactly for the canonical strings. */
  lemma {:induction false} EncodeDecode(s: seq<CodeUnit>)
    ensures ToBytes(s).Ok? && Encode(ToBytes(s).value) == s <==> Canonical(s)
  {
    var t := BeforePad(s);
    if Canonical(s) {
      assert |t| % 4 != 1 && PlaceHolders(s) == Fill(|t|);
      var b := DecodeChars(t);
      CharsOfDecoded(t);
      EncodeChars(b);
      PadCountFills(b);
      WholeDecodes(s, t);
    }
    if ToBytes(s).Ok? && Encode(ToBytes(s).value) == s {
      EncodingIsCanonical(ToBytes(s).value);
    }
  }

  lemma {:induction false} EncodingIsCanonical(b: seq<Byte>)
    ensures Canonical(Encode(b))
  {
    EncodingParts(b);
    EncodeChars(b);
    CharsTrailingBits(b);
  }

  lemma {:induction false} QuadKeepsTrailing(q: seq<CodeUnit>, t: seq<CodeUnit>)
    requires |q| == 4 && TrailingBitsZero(t)
    ensures TrailingBitsZero(q + t)
  {
    hide RevLookup;
    assert |q + t| % 4 == |t| % 4;
    assert t != [] ==> (q + t)[|q + t| - 1] == t[|t| - 1];
  }

  lemma {:induction false} CharsTrailingBits(b: seq<Byte>)
    ensures TrailingBitsZero(Chars(b))
  {
    hide Lookup, RevLookup;
    if |b| >= 3 {
      CharsTrailingBits(b[3..]);
      hide TrailingBitsZero, Quad;
      QuadKeepsTrailing(Quad(b[0], b[1], b[2]), Chars(b[3..]));
    } else if |b| == 2 {
      LookupInverse(b[1] % 16 * 4);
    } else if |b| == 1 {
      LookupInverse(b[0] % 4 * 16);
    }
  }

  /** The allocated array is filled exactly, except when '=' follows a whole number of quads. */
  lemma {:induction false} LengthExact(s: seq<CodeUnit>)
    requires |s| % 4 == 0
    ensures var validLen, placeHoldersLen := |BeforePad(s)|, PlaceHolders(s);
            |DecodeChars(Payload(s))| == (validLen + placeHoldersLen) * 3 / 4 - placeHoldersLen <==> placeHoldersLen != 4
  {
    var v, p, t := |BeforePad(s)|, PlaceHolders(s), Payload(s);
    var k, r := PayloadLength(s);
    hide DecodeChars, BeforePad, PlaceHolders, Payload;
    DecodedLength(t);
    Tally(k, r, p, |t|);
  }

  lemma {:induction false} PayloadLength(s: seq<CodeUnit>) returns (k: int, r: int)
    requires |s| % 4 == 0
    ensures var v, p := |BeforePad(s)|, PlaceHolders(s);
            && |Payload(s)| == (if p == 4 && v > 0 then v - 4 else v)
            && 0 <= r < 4 && v == 4 * k + r && (p == 4 - r || (p == 0 && r == 0))
  {
    hide BeforePad;
    var v := |BeforePad(s)|;
    k, r := v / 4, v % 4;
  }

  /** Rounding up to whole quads and taking three quarters. */
  lemma {:induction false} Tally(k: int, r: int, p: int, t: int)
    requires 0 <= r < 4 && k >= 0 && (p == 4 - r || (p == 0 && r == 0))
    requires t == if p == 4 && k > 0 then 4 * k - 4 else 4 * k + r
    ensures t / 4 * 3 + (if t % 4 < 2 then 0 else t % 4 - 1) == (4 * k + r + p) * 3 / 4 - p <==> p != 4
  {
    var k' := if p == 4 && k > 0 then k - 1 else k;
    assert t == 4 * k' + r && t / 4 == k' && t % 4 == r;
    assert (4 * k + r + p) * 3 == 4 * (3 * k + if p == 0 then 0 else 3);
  }

  lemma {:induction false} DecodedLength(t: seq<CodeUnit>)
    ensures |DecodeChars(t)| == |t| / 4 * 3 + if |t| % 4 < 2 then 0 else |t| % 4 - 1
  {
    if |t| >= 4 {
      DecodedLength(t[4..]);
    }
  }

  // ------------------------------------------------------------------ base64clean

  /** JavaScript white space, as `trim` removes it. */
  predicate IsSpace(c: CodeUnit) {
    9 <= c <= 13 || c in {32, 160, 5760, 8232, 8233, 8239, 8287, 12288, 65279} || 8192 <= c <= 8202
  }

  function TrimLeft(s: seq<CodeUnit>): seq<CodeUnit> {
    if s != [] && IsSpace(s[0]) then TrimLeft(s[1..]) else s
  }

  function TrimRight(s: seq<CodeUnit>): seq<CodeUnit> {
    if s != [] && IsSpace(s[|s| - 1]) then TrimRight(s[..|s| - 1]) else s
  }

  function KeepAlphabet(s: seq<CodeUnit>): (t: seq<CodeUnit>)
    ensures forall i :: 0 <= i < |t| ==> InAlphabet(t[i])
  {
    if s == [] then [] else (if InAlphabet(s[0]) then [s[0]] else []) + KeepAlphabet(s[1..])
  }

  /** The characters of both alphabets before the first '=', padded to whole quads. */
  function Clean(s: seq<CodeUnit>): seq<CodeUnit> {
    var t := KeepAlphabet(BeforePad(s));
    if |t| < 2 then [] else t + Pads(Fill(|t|))
  }

  method Base64Clean(str: seq<CodeUnit>) returns (s: seq<CodeUnit>)
    ensures s == Clean(str)
  {
    hide BeforePad, KeepAlphabet, TrimLeft, TrimRight, Pads, InAlphabet;
    s := BeforePad(str);  // str.split("=")[0]
    TrimRightIsRedundant(s);
    TrimLeftIsRedundant(TrimRight(s));
    s := KeepAlphabet(TrimLeft(TrimRight(s)));
    if |s| < 2 { return []; }
    ghost var t, pads := s, 0;
    while |s| % 4 != 0
      invariant pads <= Fill(|t|) && |s| == |t| + pads && s == t + Pads(pads)
      decreases Fill(|t|) - pads
    {
      FillIsLeast(|t|, pads);
      PadsGrow(pads);
      s := s + [PAD];
      pads := pads + 1;
    }
    FillIsLeast(|t|, pads);
  }

  lemma {:induction false} PadsGrow(n: nat)
    ensures Pads(n + 1) == Pads(n) + [PAD]
  {
    if n > 0 {
      PadsGrow(n - 1);
    }
  }

  lemma {:induction false} KeepAppend(s: seq<CodeUnit>, t: seq<CodeUnit>)
    ensures KeepAlphabet(s + t) == KeepAlphabet(s) + KeepAlphabet(t)
  {
    if s == [] {
      assert s + t == t;
    } else {
      assert (s + t)[1..] == s[1..] + t;
      KeepAppend(s[1..], t);
    }
  }

  lemma {:induction false} TrimLeftIsRedundant(s: seq<CodeUnit>)
    ensures KeepAlphabet(TrimLeft(s)) == KeepAlphabet(s)
  {
    if s != [] && IsSpace(s[0]) {
      TrimLeftIsRedundant(s[1..]);
    }
  }

  lemma {:induction false} TrimRightIsRedundant(s: seq<CodeUnit>)
    ensures KeepAlphabet(TrimRight(s)) == KeepAlphabet(s)
  {
    if s != [] && IsSpace(s[|s| - 1]) {
      var front, last := s[..|s| - 1], [s[|s| - 1]];
      TrimRightIsRedundant(front);
      KeepAppend(front, last);
      assert s == front + last;
      SpaceIsDropped(s[|s| - 1]);
    }
  }

  lemma SpaceIsDropped(c: CodeUnit)
    requires IsSpace(c)
    ensures KeepAlphabet([c]) == []
  {
  }

  lemma {:induction false} KeepAll(t: seq<CodeUnit>)
    requires forall i :: 0 <= i < |t| ==> InAlphabet(t[i])
    ensures KeepAlphabet(t) == t
  {
    if t != [] {
      KeepAll(t[1..]);
    }
  }

  /** Cleaning leaves an encoding as it is, so decoding undoes encoding through it too. */
  lemma {:induction false} CleanEncoding(b: seq<Byte>)
    ensures Clean(Encode(b)) == Encode(b) && ToBytes(Clean(Encode(b))) == Ok(b)
  {
    EncodingParts(b);
    EncodeChars(b);
    PadCountFills(b);
    KeepAll(Chars(b));
    DecodeEncode(b);
  }

  /** Reading through `base64clean` never throws: it decodes whatever characters are left. */
  lemma {:induction false} CleanedAlwaysDecodes(s: seq<CodeUnit>)
    ensures ToBytes(Clean(s)) == Ok(DecodeChars(KeepAlphabet(BeforePad(s))))
  {
    var t := KeepAlphabet(BeforePad(s));
    if |t| >= 2 {
      FilledDecodes(t);
    } else {
      WholeDecodes([], []);
    }
  }

  lemma {:induction false} FilledDecodes(t: seq<CodeUnit>)
    requires PAD !in t
    ensures ToBytes(t + Pads(Fill(|t|))) == Ok(DecodeChars(t))
  {
    hide DecodeChars, ToBytes, BeforePad, Pads;
    var s := t + Pads(Fill(|t|));
    BeforePadOf(t, Fill(|t|));
    FillIsLeast(|t|, Fill(|t|));
    assert |s| % 4 == 0;
    WholeDecodes(s, t);
  }

  method Base64ToBytes(str: seq<CodeUnit>) returns (arr: array<Byte>)
    ensures arr[..] == DecodeChars(KeepAlphabet(BeforePad(str)))
  {
    var cleaned := Base64Clean(str);
    CleanedAlwaysDecodes(str);
    var r := Base64Codec.ToByteArray(cleaned);
    arr := r.value;
  }

  /** Section 5 of RFC 4648: '-' and '_' in place of '+' and '/'. */
  function UrlSafe(t: seq<CodeUnit>): (u: seq<CodeUnit>)
    ensures |u| == |t|
  {
    if t == [] then []
    else [if t[0] == PLUS then MINUS else if t[0] == SLASH then UNDERSCORE else t[0]] + UrlSafe(t[1..])
  }

  lemma {:induction false} UrlSafeDecodes(t: seq<CodeUnit>)
    ensures DecodeChars(UrlSafe(t)) == DecodeChars(t)
  {
    var u := UrlSafe(t);
    hide RevLookup, Byte0, Byte1, Byte2;
    UrlSafeAt(t);
    if |t| >= 4 {
      UrlSafeDecodes(t[4..]);
      assert u[4..] == UrlSafe(t[4..]);
    }
  }

  lemma {:induction false} UrlSafeAt(t: seq<CodeUnit>)
    ensures forall i :: 0 <= i < |t| ==> RevLookup(UrlSafe(t)[i]) == RevLookup(t[i])
    ensures forall k :: 0 <= k <= |t| ==> UrlSafe(t)[k..] == UrlSafe(t[k..])
  {
    if t != [] {
      UrlSafeAt(t[1..]);
      forall k | 0 <= k <= |t| ensures UrlSafe(t)[k..] == UrlSafe(t[k..]) {
        if k > 0 {
          assert UrlSafe(t)[k..] == UrlSafe(t[1..])[k - 1..] && t[1..][k - 1..] == t[k..];
        }
      }
      forall i | 0 <= i < |t| ensures RevLookup(UrlSafe(t)[i]) == RevLookup(t[i]) {
        if i > 0 {
          assert UrlSafe(t)[i] == UrlSafe(t[1..])[i - 1];
        }
      }
    }
  }

  lemma {:induction false} UrlSafeAppend(s: seq<CodeUnit>, t: seq<CodeUnit>)
    ensures UrlSafe(s + t) == UrlSafe(s) + UrlSafe(t)
  {
    if s == [] {
      assert s + t == t;
    } else {
      assert (s + t)[1..] == s[1..] + t;
      UrlSafeAppend(s[1..], t);
    }
  }

  lemma {:induction false} UrlSafePads(n: nat)
    ensures UrlSafe(Pads(n)) == Pads(n)
  {
    if n > 0 {
      UrlSafePads(n - 1);
    }
  }

  lemma {:induction false} UrlSafeIsAlphabet(t: seq<CodeUnit>)
    requires forall i :: 0 <= i < |t| ==> InStandardAlphabet(t[i])
    ensures forall i :: 0 <= i < |t| ==> InAlphabet(UrlSafe(t)[i]) && UrlSafe(t)[i] != PAD
  {
    if t != [] {
      UrlSafeIsAlphabet(t[1..]);
      forall i | 0 <= i < |t| ensures InAlphabet(UrlSafe(t)[i]) && UrlSafe(t)[i] != PAD {
        if i > 0 {
          assert UrlSafe(t)[i] == UrlSafe(t[1..])[i - 1];
        }
      }
    }
  }

  /** The whole path reads section 5 of RFC 4648: the URL-safe form of any encoding, with its padding or without. */
  lemma {:induction false} UrlSafeRoundTrip(b: seq<Byte>)
    ensures ToBytes(Clean(UrlSafe(Encode(b)))) == Ok(b)
    ensures ToBytes(Clean(UrlSafe(BeforePad(Encode(b))))) == Ok(b)
  {
    hide ToBytes, Clean, Encode, DecodeChars, InAlphabet, InStandardAlphabet;
    var t, n := Chars(b), PadCount(b);
    EncodeChars(b);
    EncodingParts(b);
    UrlSafeAppend(t, Pads(n));
    UrlSafePads(n);
    UrlSafeIsAlphabet(t);
    var u := UrlSafe(t);
    BeforePadOf(u, n);
    BeforePadOf(u, 0);
    assert u + Pads(0) == u;
    KeepAll(u);
    CleanedAlwaysDecodes(u + Pads(n));
    CleanedAlwaysDecodes(u);
    UrlSafeDecodes(t);
    DecodeCharsOf(b);
  }

  // ------------------------------------------------------------------ what cleaning ignores

  /** Neither a letter, nor a digit, nor one of `+`, `/`, `-`, `_` and `=`. */
  predicate IsNoise(c: CodeUnit) {
    && !('A' as int <= c <= 'Z' as int) && !('a' as int <= c <= 'z' as int) && !('0' as int <= c <= '9' as int)
    && c != '+' as int && c != '/' as int && c != '-' as int && c != '_' as int && c != '=' as int
  }

  /** Line breaks and any other noise, wherever they stand, change nothing; nor does what follows the first '='. */
  lemma {:induction false} CleanIgnoresNoise(s: seq<CodeUnit>, c: CodeUnit, t: seq<CodeUnit>)
    ensures IsNoise(c) ==> Clean(s + [c] + t) == Clean(s + t)
    ensures c == '=' as int ==> Clean(s + [c] + t) == Clean(s)
  {
    if c == '=' as int {
      CutAtPad(s, t);
    }
    if IsNoise(c) {
      NoiseIsDropped(s, c, t);
    }
  }

  /** What is left without noise is dropped when it is shorter than two characters, and filled up to whole quads with '=' otherwise. */
  lemma {:induction false} CleanFillsQuads(t: seq<CodeUnit>)
    requires forall i :: 0 <= i < |t| ==> !IsNoise(t[i]) && t[i] != '=' as int
    ensures |t| < 2 ==> Clean(t) == []
    ensures |t| >= 2 ==> |Clean(t)| % 4 == 0 && |t| <= |Clean(t)| < |t| + 4 && t <= Clean(t) && forall i :: |t| <= i < |Clean(t)| ==> Clean(t)[i] == '=' as int
  {
    forall i | 0 <= i < |t| ensures InAlphabet(t[i]) {
      assert !IsNoise(t[i]);
    }
    hide InAlphabet, IsNoise;
    KeepAll(t);
    BeforePadOf(t, 0);
    assert t + Pads(0) == t;
  }

  lemma {:induction false} CutAtPad(s: seq<CodeUnit>, t: seq<CodeUnit>)
    ensures BeforePad(s + [PAD] + t) == BeforePad(s)
  {
    if s != [] {
      assert (s + [PAD] + t)[1..] == s[1..] + [PAD] + t;
      CutAtPad(s[1..], t);
    }
  }

  lemma {:induction false} NoiseIsDropped(s: seq<CodeUnit>, c: CodeUnit, t: seq<CodeUnit>)
    requires IsNoise(c)
    ensures KeepAlphabet(BeforePad(s + [c] + t)) == KeepAlphabet(BeforePad(s + t))
  {
    hide BeforePad, KeepAlphabet, InAlphabet;
    if s == [] {
      assert s + [c] + t == [c] + t && s + t == t;
      CutOne(c, t);
      KeepOne(c, BeforePad(t));
      assert !InAlphabet(c) by { NoiseIsOutside(c); }
      assert [] + KeepAlphabet(BeforePad(t)) == KeepAlphabet(BeforePad(t));
    } else {
      var front := [s[0]];
      assert s + [c] + t == front + (s[1..] + [c] + t) && s + t == front + (s[1..] + t);
      NoiseIsDropped(s[1..], c, t);
      CutOne(s[0], s[1..] + [c] + t);
      CutOne(s[0], s[1..] + t);
      KeepOne(s[0], BeforePad(s[1..] + [c] + t));
      KeepOne(s[0], BeforePad(s[1..] + t));
    }
  }

  lemma NoiseIsOutside(c: CodeUnit)
    requires IsNoise(c)
    ensures !InAlphabet(c)
  {
  }

  lemma {:induction false} CutOne(c: CodeUnit, t: seq<CodeUnit>)
    ensures BeforePad([c] + t) == if c == PAD then [] else [c] + BeforePad(t)
  {
    assert ([c] + t)[1..] == t;
  }

  lemma {:induction false} KeepOne(c: CodeUnit, t: seq<CodeUnit>)
    ensures KeepAlphabet([c] + t) == (if InAlphabet(c) then [c] else []) + KeepAlphabet(t)
  {
    assert ([c] + t)[1..] == t;
  }
}
