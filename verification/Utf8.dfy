/**
 UTF-8 encoding and decoding of JavaScript strings (sequences of UTF-16 code units), as in
 the front end's Buffer bundle.  Shifts and masks on non-negative numbers are written as the
 division and remainder they equal.
 */
module Utf8 {
  import opened Common

  predicate IsLead(u: int) { 0xD800 <= u < 0xDC00 }

  predicate IsTrail(u: int) { 0xDC00 <= u < 0xE000 }

  /** A Unicode scalar value: what one character of a well-formed text denotes. */
  type Scalar = v: int | 0 <= v < 0xD800 || 0xE000 <= v < 0x110000

  const REPLACEMENT: Scalar := 0xFFFD

  // ------------------------------------------------------------------ reference definitions

  function TailByte(d: int): (b: Byte)
    ensures b == 0x80 + d % 0x40
  {
    0x80 + d % 0x40
  }

  /** Section 3 of RFC 3629. */
  function EncodeScalar(v: Scalar): (b: seq<Byte>)
    ensures 1 <= |b| <= 4
  {
    var n: int := v as int;
    if n < 0x80 then [n as Byte]
    else if n < 0x800 then [(0xC0 + n / 0x40) as Byte, TailByte(n)]
    else if n < 0x10000 then [(0xE0 + n / 0x1000) as Byte, TailByte(n / 0x40), TailByte(n)]
    else [(0xF0 + n / 0x40000) as Byte, TailByte(n / 0x1000), TailByte(n / 0x40), TailByte(n)]
  }

  function Encode(vs: seq<Scalar>): seq<Byte> {
    if vs == [] then [] else EncodeScalar(vs[0]) + Encode(vs[1..])
  }

  /** Section 2.1 of RFC 2781. */
  function UnitsOf(v: Scalar): seq<CodeUnit> {
    var n: int := v as int;
    if n < 0x10000 then [n as CodeUnit]
    else [(0xD800 + (n - 0x10000) / 0x400) as CodeUnit, (0xDC00 + (n - 0x10000) % 0x400) as CodeUnit]
  }

  function Utf16(vs: seq<Scalar>): seq<CodeUnit> {
    if vs == [] then [] else UnitsOf(vs[0]) + Utf16(vs[1..])
  }

  /** A lead at position `i` is followed by a trail and a trail follows a lead. */
  predicate PairedAt(s: seq<CodeUnit>, i: nat)
    requires i < |s|
  {
    && (IsLead(s[i]) ==> i + 1 < |s| && IsTrail(s[i + 1]))
    && (IsTrail(s[i]) ==> i > 0 && IsLead(s[i - 1]))
  }

  /** No unpaired surrogate. */
  predicate WellFormed16(s: seq<CodeUnit>) {
    forall i :: 0 <= i < |s| ==> PairedAt(s, i)
  }

  /** Section 2.2 of RFC 2781. */
  function PairValue(lead: int, trail: int): (v: Scalar)
    requires IsLead(lead) && IsTrail(trail)
    ensures v >= 0x10000
  {
    0x10000 + (lead - 0xD800) * 0x400 + (trail - 0xDC00)
  }

  /** The text a string denotes when each unpaired surrogate is replaced by U+FFFD. */
  function Lossy(s: seq<CodeUnit>): seq<Scalar> {
    if s == [] then []
    else if IsLead(s[0]) && |s| > 1 && IsTrail(s[1]) then [PairValue(s[0], s[1])] + Lossy(s[2..])
    else if IsLead(s[0]) || IsTrail(s[0]) then [REPLACEMENT] + Lossy(s[1..])
    else [s[0]] + Lossy(s[1..])
  }

  predicate Tail(b: Byte) { 0x80 <= b <= 0xBF }

  // UTF8-2, UTF8-3 and UTF8-4 of section 4 of RFC 3629.
  predicate Utf8Two(b0: Byte, b1: Byte) { 0xC2 <= b0 <= 0xDF && Tail(b1) }

  predicate Utf8Three(b0: Byte, b1: Byte, b2: Byte) {
    && ( || (b0 == 0xE0 && 0xA0 <= b1 <= 0xBF)
         || (0xE1 <= b0 <= 0xEC && Tail(b1))
         || (b0 == 0xED && 0x80 <= b1 <= 0x9F)
         || (0xEE <= b0 <= 0xEF && Tail(b1)))
    && Tail(b2)
  }

  predicate Utf8Four(b0: Byte, b1: Byte, b2: Byte, b3: Byte) {
    && ( || (b0 == 0xF0 && 0x90 <= b1 <= 0xBF)
         || (0xF1 <= b0 <= 0xF3 && Tail(b1))
         || (b0 == 0xF4 && 0x80 <= b1 <= 0x8F))
    && Tail(b2) && Tail(b3)
  }

  /** The length of the UTF8-char at the front of `b`, 0 if there is none. */
  function CharLen(b: seq<Byte>): (n: nat)
    ensures n <= |b| && n <= 4
  {
    if |b| >= 1 && b[0] <= 0x7F then 1
    else if |b| >= 2 && Utf8Two(b[0], b[1]) then 2
    else if |b| >= 3 && Utf8Three(b[0], b[1], b[2]) then 3
    else if |b| >= 4 && Utf8Four(b[0], b[1], b[2], b[3]) then 4
    else 0
  }

  /** Section 4 of RFC 3629: UTF8-octets = *( UTF8-char ). */
  predicate WellFormed8(b: seq<Byte>) {
    b == [] || (CharLen(b) > 0 && WellFormed8(b[CharLen(b)..]))
  }

  // The payload bits of a UTF8-char, most significant first (the table in section 3 of RFC 3629).
  function Value2(b0: Byte, b1: Byte): (v: int)
    requires Utf8Two(b0, b1)
    ensures 0x80 <= v < 0x800
    ensures 0xC0 + v / 0x40 == b0 && 0x80 + v % 0x40 == b1
  {
    (b0 as int - 0xC0) * 0x40 + (b1 as int - 0x80)
  }

  function Value3(b0: Byte, b1: Byte, b2: Byte): (v: int)
    requires Utf8Three(b0, b1, b2)
    ensures 0x800 <= v < 0xD800 || 0xE000 <= v < 0x10000
    ensures 0xE0 + v / 0x1000 == b0 && 0x80 + v / 0x40 % 0x40 == b1 && 0x80 + v % 0x40 == b2
  {
    var v: int := (b0 as int - 0xE0) * 0x1000 + (b1 as int - 0x80) * 0x40 + (b2 as int - 0x80);
    Digits(v, b2 - 0x80, b1 - 0x80, b0 - 0xE0, 0);
    v
  }

  function Value4(b0: Byte, b1: Byte, b2: Byte, b3: Byte): (v: int)
    requires Utf8Four(b0, b1, b2, b3)
    ensures 0x10000 <= v < 0x110000
    ensures 0xF0 + v / 0x40000 == b0 && 0x80 + v / 0x1000 % 0x40 == b1
    ensures 0x80 + v / 0x40 % 0x40 == b2 && 0x80 + v % 0x40 == b3
  {
    var v: int :=
      (b0 as int - 0xF0) * 0x40000 + (b1 as int - 0x80) * 0x1000 + (b2 as int - 0x80) * 0x40 + (b3 as int - 0x80);
    Digits(v, b3 - 0x80, b2 - 0x80, b1 - 0x80, b0 - 0xF0);
    v
  }

  lemma Over64(num: int, q: int, r: int)
    requires 0 <= r < 0x40 && num == q * 0x40 + r
    ensures num / 0x40 == q && num % 0x40 == r
  {
  }

  lemma Over4096(num: int, q: int, r: int)
    requires 0 <= r < 0x1000 && num == q * 0x1000 + r
    ensures num / 0x1000 == q
  {
  }

  lemma Over262144(num: int, q: int, r: int)
    requires 0 <= r < 0x40000 && num == q * 0x40000 + r
    ensures num / 0x40000 == q
  {
  }

  lemma {:induction false} Digits(v: int, x: int, y: int, z: int, u: int)
    requires 0 <= x < 0x40 && 0 <= y < 0x40 && 0 <= z < 0x40
    requires v == u * 0x40000 + z * 0x1000 + y * 0x40 + x
    ensures v % 0x40 == x && v / 0x40 % 0x40 == y && v / 0x1000 % 0x40 == z && v / 0x40000 == u
    ensures v / 0x1000 == u * 0x40 + z && v / 0x40 == u * 0x1000 + z * 0x40 + y
  {
    Over64(v, u * 0x1000 + z * 0x40 + y, x);
    Over4096(v, u * 0x40 + z, y * 0x40 + x);
    Over262144(v, u, z * 0x1000 + y * 0x40 + x);
    Over64(u * 0x1000 + z * 0x40 + y, u * 0x40 + z, y);
    Over64(u * 0x40 + z, u, z);
  }

  lemma Encoded1(b0: Byte)
    requires b0 <= 0x7F
    ensures EncodeScalar(b0) == [b0]
  {
  }

  lemma {:induction false} Encoded2(b0: Byte, b1: Byte)
    requires Utf8Two(b0, b1)
    ensures EncodeScalar(Value2(b0, b1)) == [b0, b1]
  {
    hide Value2;
  }

  lemma {:induction false} Encoded3(b0: Byte, b1: Byte, b2: Byte)
    requires Utf8Three(b0, b1, b2)
    ensures EncodeScalar(Value3(b0, b1, b2)) == [b0, b1, b2]
  {
    hide Value3;
  }

  lemma {:induction false} Encoded4(b0: Byte, b1: Byte, b2: Byte, b3: Byte)
    requires Utf8Four(b0, b1, b2, b3)
    ensures EncodeScalar(Value4(b0, b1, b2, b3)) == [b0, b1, b2, b3]
  {
    hide Value4;
  }

  /** The scalar value of the UTF8-char at the front of `b`. */
  function CharAt(b: seq<Byte>): (v: Scalar)
    requires CharLen(b) > 0
    ensures EncodeScalar(v) == b[..CharLen(b)]
  {
    hide EncodeScalar, Value2, Value3, Value4;
    match CharLen(b)
    case 1 =>
      Encoded1(b[0]);
      assert b[..1] == [b[0]];
      b[0]
    case 2 =>
      Encoded2(b[0], b[1]);
      assert b[..2] == [b[0], b[1]];
      Value2(b[0], b[1])
    case 3 =>
      Encoded3(b[0], b[1], b[2]);
      assert b[..3] == [b[0], b[1], b[2]];
      Value3(b[0], b[1], b[2])
    case _ =>
      Encoded4(b[0], b[1], b[2], b[3]);
      assert b[..4] == [b[0], b[1], b[2], b[3]];
      Value4(b[0], b[1], b[2], b[3])
  }

  /** Decoding with each byte that starts no UTF8-char replaced by U+FFFD. */
  function Decode(b: seq<Byte>): seq<Scalar> {
    if b == [] then []
    else if CharLen(b) == 0 then [REPLACEMENT] + Decode(b[1..])
    else [CharAt(b)] + Decode(b[CharLen(b)..])
  }

  // ------------------------------------------------------------------ UTF-8 <-> scalars

  lemma {:induction false} CharOfEncoding(v: Scalar, rest: seq<Byte>)
    ensures CharLen(EncodeScalar(v) + rest) == |EncodeScalar(v)|
    ensures CharAt(EncodeScalar(v) + rest) == v
  {
    var e := EncodeScalar(v);
    SplitDigits(v);
    if |e| == 2 {
      assert Utf8Two(e[0], e[1]);
    } else if |e| == 3 {
      assert Utf8Three(e[0], e[1], e[2]);
    } else if |e| == 4 {
      assert Utf8Four(e[0], e[1], e[2], e[3]);
    }
  }

  lemma {:induction false} SplitDigits(v: int)
    ensures v == v / 0x40000 * 0x40000 + v / 0x1000 % 0x40 * 0x1000 + v / 0x40 % 0x40 * 0x40 + v % 0x40
    ensures v / 0x1000 == v / 0x40000 * 0x40 + v / 0x1000 % 0x40
    ensures v / 0x40 == v / 0x1000 * 0x40 + v / 0x40 % 0x40
  {
    assert v / 0x40 / 0x40 == v / 0x1000;
    assert v / 0x1000 / 0x40 == v / 0x40000;
  }

  /** Decoding undoes encoding, for every text. */
  lemma {:induction false} DecodeEncode(vs: seq<Scalar>)
    ensures Decode(Encode(vs)) == vs
    ensures WellFormed8(Encode(vs))
  {
    if vs != [] {
      var head, tail := EncodeScalar(vs[0]), Encode(vs[1..]);
      CharOfEncoding(vs[0], tail);
      assert (head + tail)[|head|..] == tail;
      DecodeEncode(vs[1..]);
    }
  }

  /**
   Decoding in terms of encoding alone: a character whose encoding is at the front is read and
   skipped; where no character's encoding is, one byte is skipped and U+FFFD read.
   */
  lemma {:induction false} DecodeExactly(b: seq<Byte>)
    ensures forall v: Scalar :: EncodeScalar(v) <= b ==> Decode(b) == [v] + Decode(b[|EncodeScalar(v)|..])
    ensures b != [] && (forall v: Scalar :: !(EncodeScalar(v) <= b)) ==> Decode(b) == [0xFFFD] + Decode(b[1..])
  {
    hide EncodeScalar, CharLen, CharAt;
    forall v: Scalar | EncodeScalar(v) <= b ensures Decode(b) == [v] + Decode(b[|EncodeScalar(v)|..]) {
      var e := EncodeScalar(v);
      assert b == e + b[|e|..];
      CharOfEncoding(v, b[|e|..]);
    }
    if CharLen(b) > 0 {
      assert EncodeScalar(CharAt(b)) <= b;
    }
  }

  /** Encoding undoes decoding exactly on the well-formed byte sequences. */
  lemma {:induction false} EncodeDecode(b: seq<Byte>)
    ensures Encode(Decode(b)) == b <==> WellFormed8(b)
  {
    if Encode(Decode(b)) == b {
      DecodeEncode(Decode(b));
    }
    if WellFormed8(b) {
      EncodeDecodeWellFormed(b);
    }
  }

  lemma {:induction false} EncodeDecodeWellFormed(b: seq<Byte>)
    requires WellFormed8(b)
    ensures Encode(Decode(b)) == b
  {
    hide CharAt, CharLen, EncodeScalar, WellFormed8, Decode, Encode;
    if b == [] {
      NothingToDecode();
    } else {
      var n := CharLen(b);
      DecodeHead(b);
      EncodeDecodeWellFormed(b[n..]);
      EncodeMore(CharAt(b), Decode(b[n..]));
      assert b == b[..n] + b[n..];
    }
  }

  lemma NothingToDecode()
    ensures Encode(Decode([])) == []
  {
  }

  lemma {:induction false} DecodeHead(b: seq<Byte>)
    requires b != [] && WellFormed8(b)
    ensures var n := CharLen(b);
            && 0 < n && WellFormed8(b[n..])
            && Decode(b) == [CharAt(b)] + Decode(b[n..]) && EncodeScalar(CharAt(b)) == b[..n]
  {
    hide CharAt, CharLen, EncodeScalar;
  }

  lemma {:induction false} EncodeMore(v: Scalar, rest: seq<Scalar>)
    ensures Encode([v] + rest) == EncodeScalar(v) + Encode(rest)
  {
    hide EncodeScalar;
    assert ([v] + rest)[1..] == rest;
  }

  // ------------------------------------------------------------------ UTF-16 <-> scalars

  lemma {:induction false} PrependWellFormed(head: seq<CodeUnit>, tail: seq<CodeUnit>)
    requires WellFormed16(tail) && (tail != [] ==> !IsTrail(tail[0]))
    requires || (|head| == 1 && !IsLead(head[0]) && !IsTrail(head[0]))
             || (|head| == 2 && IsLead(head[0]) && IsTrail(head[1]))
    ensures WellFormed16(head + tail)
  {
    var s := head + tail;
    forall i | 0 <= i < |s| ensures PairedAt(s, i) {
      if i >= |head| {
        assert PairedAt(tail, i - |head|);
        assert s[i] == tail[i - |head|];
        assert i + 1 < |s| ==> s[i + 1] == tail[i + 1 - |head|];
        assert i > |head| ==> s[i - 1] == tail[i - 1 - |head|];
      }
    }
  }

  lemma {:induction false} SplitWellFormed(s: seq<CodeUnit>) returns (n: nat)
    requires s != [] && WellFormed16(s)
    ensures n <= |s| && WellFormed16(s[n..])
    ensures if IsLead(s[0]) then n == 2 && IsTrail(s[1]) else n == 1 && !IsTrail(s[0])
  {
    assert PairedAt(s, 0);
    n := if IsLead(s[0]) then 2 else 1;
    var t := s[n..];
    forall i | 0 <= i < |t| ensures PairedAt(t, i) {
      assert PairedAt(s, n + i) && PairedAt(s, n - 1);
      assert t[i] == s[n + i];
    }
  }

  lemma {:induction false} UnitsOfPair(v: Scalar, tail: seq<CodeUnit>)
    ensures var s := UnitsOf(v) + tail;
            Lossy(s) == [v] + Lossy(tail)
  {
    var s := UnitsOf(v) + tail;
    assert s[|UnitsOf(v)|..] == tail;
  }

  /** The UTF-16 form of a text has no unpaired surrogate and denotes that text. */
  lemma {:induction false} Utf16WellFormed(vs: seq<Scalar>)
    ensures WellFormed16(Utf16(vs))
    ensures Lossy(Utf16(vs)) == vs
    ensures vs != [] ==> Utf16(vs) != [] && !IsTrail(Utf16(vs)[0])
  {
    if vs != [] {
      Utf16WellFormed(vs[1..]);
      PrependWellFormed(UnitsOf(vs[0]), Utf16(vs[1..]));
      UnitsOfPair(vs[0], Utf16(vs[1..]));
    }
  }

  /** A string is the UTF-16 form of the text it denotes exactly when it has no unpaired surrogate. */
  lemma {:induction false} LossyInverse(s: seq<CodeUnit>)
    ensures Utf16(Lossy(s)) == s <==> WellFormed16(s)
  {
    if WellFormed16(s) {
      LossyWellFormed(s);
    }
    Utf16WellFormed(Lossy(s));
  }

  /** The first character of a well-formed text, and the units it stands for. */
  lemma {:induction false} LossyHead(s: seq<CodeUnit>) returns (v: Scalar, n: nat)
    requires s != [] && WellFormed16(s)
    ensures n <= |s| && 0 < n && WellFormed16(s[n..])
    ensures Lossy(s) == [v] + Lossy(s[n..]) && UnitsOf(v) == s[..n]
  {
    n := SplitWellFormed(s);
    v := if n == 2 then PairValue(s[0], s[1]) else s[0];
    hide WellFormed16;
  }

  lemma {:induction false} LossyWellFormed(s: seq<CodeUnit>)
    requires WellFormed16(s)
    ensures Utf16(Lossy(s)) == s
  {
    if s != [] {
      var v, n := LossyHead(s);
      LossyWellFormed(s[n..]);
      hide Lossy, UnitsOf, WellFormed16;
      var rest := Lossy(s[n..]);
      assert ([v] + rest)[1..] == rest;
      assert s == s[..n] + s[n..];
    }
  }

  /** Unit by unit: what is read as replaced keeps every unit but the unpaired surrogates, which become U+FFFD. */
  lemma {:induction false} LossyIsPointwise(s: seq<CodeUnit>)
    ensures |Utf16(Lossy(s))| == |s|
    ensures forall i :: 0 <= i < |s| ==> Utf16(Lossy(s))[i] == if PairedAt(s, i) then s[i] else 0xFFFD
  {
    if s != [] {
      var n, v, u := LossyFirst(s);
      LossyIsPointwise(s[n..]);
      hide Lossy, UnitsOf;
      Utf16More(v, Lossy(s[n..]));
      forall i | n <= i < |s| ensures PairedAt(s, i) == PairedAt(s[n..], i - n) {
        PairedBeyond(s, n, i);
      }
    }
  }

  /** The first character read, the units it takes from the string and those it stands for. */
  lemma {:induction false} LossyFirst(s: seq<CodeUnit>) returns (n: nat, v: Scalar, u: seq<CodeUnit>)
    requires s != []
    ensures 0 < n <= |s| && (n == 2 || n == 1) && Lossy(s) == [v] + Lossy(s[n..]) && UnitsOf(v) == u && |u| == n
    ensures forall i :: 0 <= i < n ==> u[i] == if PairedAt(s, i) then s[i] else 0xFFFD
    ensures n < |s| && IsTrail(s[n]) ==> !IsLead(s[n - 1])
  {
    if IsLead(s[0]) && |s| > 1 && IsTrail(s[1]) {
      n, v, u := 2, PairValue(s[0], s[1]), s[..2];
    } else if IsLead(s[0]) || IsTrail(s[0]) {
      n, v, u := 1, REPLACEMENT, [0xFFFD];
    } else {
      n, v, u := 1, s[0], s[..1];
    }
    hide Lossy;
  }

  lemma PairedBeyond(s: seq<CodeUnit>, n: nat, i: nat)
    requires 0 < n <= i < |s| && (IsTrail(s[n]) ==> !IsLead(s[n - 1]))
    ensures PairedAt(s, i) == PairedAt(s[n..], i - n)
  {
  }

  lemma {:induction false} Utf16More(v: Scalar, rest: seq<Scalar>)
    ensures Utf16([v] + rest) == UnitsOf(v) + Utf16(rest)
  {
    hide UnitsOf;
    assert ([v] + rest)[1..] == rest;
  }

  // ------------------------------------------------------------------ examples from the standards

  /** Section 7 of RFC 3629: U+0041 U+2262 U+0391 U+002E, and U+233B4. */
  lemma ExamplesOfRfc3629()
    ensures EncodeScalar(0x41) == [0x41] && EncodeScalar(0x2262) == [0xE2, 0x89, 0xA2]
    ensures EncodeScalar(0x391) == [0xCE, 0x91] && EncodeScalar(0x233B4) == [0xF0, 0xA3, 0x8E, 0xB4]
  {
  }

  /** Section 2 of RFC 2781: U+12345 is D808 DF45, and the surrogates end at D800, DBFF, DC00 and DFFF. */
  lemma ExamplesOfRfc2781()
    ensures UnitsOf(0x12345) == [0xD808, 0xDF45] && PairValue(0xD808, 0xDF45) == 0x12345
    ensures UnitsOf(0x10000) == [0xD800, 0xDC00] && UnitsOf(0x10FFFF) == [0xDBFF, 0xDFFF]
  {
  }
}
