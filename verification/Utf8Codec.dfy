/** The Buffer bundle's UTF-8 writer and reader, proved against the definitions in Utf8. */
module Utf8Codec {
  import opened Common
  import opened Utf8

  // ------------------------------------------------------------------ what the writer writes

  predicate EndsInTwoLeads(s: seq<CodeUnit>) {
    |s| >= 2 && IsLead(s[|s| - 2]) && IsLead(s[|s| - 1])
  }

  /** The writer forgets a lead surrogate that is still pending when the string ends. */
  function Kept(s: seq<CodeUnit>): (k: seq<CodeUnit>)
    ensures k <= s && |s| - 1 <= |k|
  {
    if EndsInTwoLeads(s) then s[..|s| - 1] else s
  }

  /** The characters whose encodings fit, in order, in `n` bytes. */
  function Fit(vs: seq<Scalar>, n: int): seq<Scalar> {
    if vs == [] || |EncodeScalar(vs[0])| > n then []
    else [vs[0]] + Fit(vs[1..], n - |EncodeScalar(vs[0])|)
  }

  /** The bytes of `vs` within a budget; a budget of 0 is taken as no limit. */
  function Budgeted(vs: seq<Scalar>, unlimited: bool, n: int): seq<Byte> {
    Encode(if unlimited then vs else Fit(vs, n))
  }

  function ToBytes(s: seq<CodeUnit>, units: nat): seq<Byte> {
    Budgeted(Lossy(Kept(s)), units == 0, units)
  }

  /** Under a budget the writer writes whole characters only, and as many of the first ones as fit. */
  lemma {:induction false} FitIsLongestPrefix(vs: seq<Scalar>, n: nat)
    ensures var f := Fit(vs, n);
            && f <= vs
            && |Encode(f)| <= n
            && (forall k :: |f| < k <= |vs| ==> |Encode(vs[..k])| > n)
  {
    hide EncodeScalar;
    if vs != [] {
      var w := |EncodeScalar(vs[0])|;
      if w <= n {
        FitIsLongestPrefix(vs[1..], n - w);
      }
      var f := Fit(vs, n);
      forall k | |f| < k <= |vs| ensures |Encode(vs[..k])| > n {
        assert vs[..k][1..] == vs[1..][..k - 1];
      }
    }
  }

  /** `bytes` are whole characters of `vs`, as many of the first ones as `units` bytes can hold. */
  predicate FillsBudget(bytes: seq<Byte>, vs: seq<Scalar>, units: nat) {
    && |bytes| <= units
    && exists k :: 0 <= k <= |vs| && bytes == Encode(vs[..k]) && forall j :: k < j <= |vs| ==> |Encode(vs[..j])| > units
  }

  lemma {:induction false} BudgetIsFilled(s: seq<CodeUnit>, units: nat)
    ensures if units == 0 then ToBytes(s, units) == Encode(Lossy(Kept(s))) else FillsBudget(ToBytes(s, units), Lossy(Kept(s)), units)
  {
    hide Lossy, Kept, Fit, Encode;
    var vs := Lossy(Kept(s));
    FitIsLongestPrefix(vs, units);
    var k := |Fit(vs, units)|;
    assert vs[..k] == Fit(vs, units);
  }

  /** What is still to be written from position `k` on. */
  function Rest(s: seq<CodeUnit>, k: nat): seq<Scalar> {
    if k <= |Kept(s)| then Lossy(Kept(s)[k..]) else []
  }

  lemma {:induction false} Unroll(s: seq<CodeUnit>, k: nat)
    requires k < |Kept(s)|
    ensures if IsLead(s[k]) && k + 1 < |s| && IsTrail(s[k + 1])
            then k + 2 <= |Kept(s)| && Rest(s, k) == [PairValue(s[k], s[k + 1])] + Rest(s, k + 2)
            else Rest(s, k) == [if IsLead(s[k]) || IsTrail(s[k]) then REPLACEMENT else s[k]] + Rest(s, k + 1)
  {
    var t := Kept(s)[k..];
    assert t[1..] == Kept(s)[k + 1..];
    assert |t| > 1 ==> t[2..] == Kept(s)[k + 2..];
  }

  lemma {:induction false} BudgetStep(v: Scalar, rest: seq<Scalar>, unlimited: bool, n: int)
    ensures Budgeted([v] + rest, unlimited, n) ==
            if unlimited || n - |EncodeScalar(v)| > -1
            then EncodeScalar(v) + Budgeted(rest, unlimited, n - |EncodeScalar(v)|)
            else []
    ensures !unlimited && n - |EncodeScalar(v)| < 0 ==> Budgeted(rest, unlimited, n - |EncodeScalar(v)|) == []
  {
    assert ([v] + rest)[1..] == rest;
    var f := Fit(rest, n - |EncodeScalar(v)|);
    assert ([v] + f)[1..] == f;
  }

  lemma {:induction false} BudgetStepAfter(before: seq<Byte>, v: Scalar, rest: seq<Scalar>, unlimited: bool, n: int)
    ensures var left := n - |EncodeScalar(v)|;
            before + Budgeted([v] + rest, unlimited, n) ==
            if unlimited || left > -1 then (before + EncodeScalar(v)) + Budgeted(rest, unlimited, left)
            else before
    ensures var left := n - |EncodeScalar(v)|;
            !unlimited && left < 0 ==> Budgeted(rest, unlimited, left) == []
  {
    BudgetStep(v, rest, unlimited, n);
  }

  /** A lead before another code unit always waits for it, so what is pending is the previous unit. */
  ghost predicate Pending(s: seq<CodeUnit>, i: nat, lead: Option<int>)
    requires i <= |s|
  {
    && (lead.Some? ==> i > 0 && IsLead(s[i - 1]) && lead.value == s[i - 1])
    && (lead.Some? && i == |s| ==> EndsInTwoLeads(s))
    && (lead.None? && 0 < i && IsLead(s[i - 1]) ==> i == |s| && !EndsInTwoLeads(s))
  }

  function NextToWrite(i: nat, lead: Option<int>): int {
    if lead.Some? then i - 1 else i
  }

  /** How the text still to be written shrinks when the unit at `i` is read. */
  lemma {:induction false} ReadUnit(s: seq<CodeUnit>, i: nat, lead: Option<int>)
    requires i < |s| && Pending(s, i, lead)
    ensures NextToWrite(i, lead) < |Kept(s)|
    ensures !(IsLead(s[i]) && i + 1 == |s| && lead.Some?) ==> i < |Kept(s)|
    ensures lead.Some? ==> Rest(s, i - 1) ==
                           if IsTrail(s[i]) then [PairValue(lead.value, s[i])] + Rest(s, i + 1)
                           else [REPLACEMENT] + Rest(s, i)
    ensures !IsLead(s[i]) && !IsTrail(s[i]) ==> Rest(s, i) == [s[i]] + Rest(s, i + 1)
    ensures lead.None? && (IsTrail(s[i]) || (IsLead(s[i]) && i + 1 == |s|)) ==> Rest(s, i) == [REPLACEMENT] + Rest(s, i + 1)
  {
    if lead.Some? {
      Unroll(s, i - 1);
    }
    if i < |Kept(s)| {
      Unroll(s, i);
    }
  }

  /** The bytes each branch of the writer computes are those of the encoding. */
  lemma {:induction false} EncodedInRange(v: Scalar)
    ensures v < 128 ==> EncodeScalar(v) == [v]
    ensures 128 <= v < 2048 ==>
              0 <= v / 64 + 192 < 256 && EncodeScalar(v) == [v / 64 + 192, v % 64 + 128]
    ensures 2048 <= v < 65536 ==>
              0 <= v / 4096 + 224 < 256 && EncodeScalar(v) == [v / 4096 + 224, v / 64 % 64 + 128, v % 64 + 128]
    ensures 65536 <= v ==>
              0 <= v / 262144 + 240 < 256 && EncodeScalar(v) == [v / 262144 + 240, v / 4096 % 64 + 128, v / 64 % 64 + 128, v % 64 + 128]
  {
  }

  /** The bytes of one code point, unless the budget ends here. */
  method PushCodePoint(before: seq<Byte>, codePoint: int, unlimited: bool, budget: int, ghost rest: seq<Scalar>)
    returns (bytes: seq<Byte>, left: int, full: bool)
    requires 0 <= codePoint < 0xD800 || 0xE000 <= codePoint < 0x110000
    ensures before + Budgeted([codePoint] + rest, unlimited, budget) ==
            bytes + if full then [] else Budgeted(rest, unlimited, left)
  {
    BudgetStepAfter(before, codePoint, rest, unlimited, budget);
    EncodedInRange(codePoint);
    hide Budgeted, EncodeScalar;
    bytes, left, full := before, budget, false;
    if codePoint < 128 {
      left := left - 1;
      if !unlimited && left < 0 { full := true; return; }
      bytes := bytes + [codePoint];
    } else if codePoint < 2048 {
      left := left - 2;
      if !unlimited && left < 0 { full := true; return; }
      bytes := bytes + [codePoint / 64 + 192, codePoint % 64 + 128];
    } else if codePoint < 65536 {
      left := left - 3;
      if !unlimited && left < 0 { full := true; return; }
      bytes := bytes + [codePoint / 4096 + 224, codePoint / 64 % 64 + 128, codePoint % 64 + 128];
    } else if codePoint < 1114112 {
      left := left - 4;
      if !unlimited && left < 0 { full := true; return; }
      bytes := bytes + [codePoint / 262144 + 240, codePoint / 4096 % 64 + 128, codePoint / 64 % 64 + 128, codePoint % 64 + 128];
    } else {
      assert false;  // "Invalid code point" is never thrown
    }
  }

  /** One replacement character: written if it fits, and nothing more fits if it does not. */
  method PushReplacement(before: seq<Byte>, unlimited: bool, budget: int, ghost rest: seq<Scalar>)
    returns (bytes: seq<Byte>, left: int)
    ensures before + Budgeted([REPLACEMENT] + rest, unlimited, budget) == bytes + Budgeted(rest, unlimited, left)
  {
    BudgetStepAfter(before, REPLACEMENT, rest, unlimited, budget);
    bytes, left := before, budget - 3;
    if unlimited || left > -1 { bytes := bytes + [239, 191, 189]; }
  }

  lemma {:induction false} RestIsWhole(s: seq<CodeUnit>, units: nat)
    ensures ToBytes(s, units) == [] + Budgeted(Rest(s, 0), units == 0, units)
  {
    assert Kept(s)[0..] == Kept(s);
  }

  lemma {:induction false} NothingToWrite(s: seq<CodeUnit>, k: nat, unlimited: bool, n: int)
    requires k >= |Kept(s)|
    ensures Budgeted(Rest(s, k), unlimited, n) == []
  {
  }

  method Utf8ToBytes(str: seq<CodeUnit>, units: nat) returns (bytes: seq<Byte>)
    ensures bytes == ToBytes(str, units)
    ensures if units == 0 then bytes == Encode(Lossy(Kept(str))) else FillsBudget(bytes, Lossy(Kept(str)), units)
  {
    BudgetIsFilled(str, units);
    hide FillsBudget, Encode, Lossy, Fit, Budgeted, Rest;
    var unlimited := units == 0;
    var left: int := units;
    var leadSurrogate: Option<int> := None;
    bytes := [];
    RestIsWhole(str, units);
    for i := 0 to |str|
      invariant Pending(str, i, leadSurrogate)
      invariant 0 <= NextToWrite(i, leadSurrogate) <= |Kept(str)|
      invariant ToBytes(str, units) == bytes + Budgeted(Rest(str, NextToWrite(i, leadSurrogate)), unlimited, left)
    {
      ReadUnit(str, i, leadSurrogate);
      var codePoint: int := str[i];
      if codePoint > 55295 && codePoint < 57344 {
        if leadSurrogate.None? {
          if codePoint > 56319 || i + 1 == |str| {
            bytes, left := PushReplacement(bytes, unlimited, left, Rest(str, i + 1));
            continue;
          }
          leadSurrogate := Some(codePoint);
          continue;
        }
        if codePoint < 56320 {
          bytes, left := PushReplacement(bytes, unlimited, left, Rest(str, i));
          leadSurrogate := Some(codePoint);
          continue;
        }
        codePoint := PairValue(leadSurrogate.value, codePoint);
      } else if leadSurrogate.Some? {
        bytes, left := PushReplacement(bytes, unlimited, left, Rest(str, i));
      }
      leadSurrogate := None;
      var full;
      bytes, left, full := PushCodePoint(bytes, codePoint, unlimited, left, Rest(str, i + 1));
      if full { return; }
    }
    NothingToWrite(str, NextToWrite(|str|, leadSurrogate), unlimited, left);
  }

  // ------------------------------------------------------------------ the reader

  predicate Continues(b: Byte) { b / 64 == 2 }  // (b & 192) === 128

  // The reader's range tests on the value are the byte ranges of the RFC's grammar.
  lemma Accept2(b0: Byte, b1: Byte)
    requires 191 < b0 <= 223
    ensures var v := b0 as int % 32 * 64 + b1 as int % 64;
            (Continues(b1) && v > 127 <==> Utf8Two(b0, b1)) && (Utf8Two(b0, b1) ==> v == Value2(b0, b1))
  {
  }

  lemma Accept3(b0: Byte, b1: Byte, b2: Byte)
    requires 223 < b0 <= 239
    ensures var v := b0 as int % 16 * 4096 + b1 as int % 64 * 64 + b2 as int % 64;
            && (Continues(b1) && Continues(b2) && v > 2047 && (v < 55296 || v > 57343) <==> Utf8Three(b0, b1, b2))
            && (Utf8Three(b0, b1, b2) ==> v == Value3(b0, b1, b2))
  {
  }

  lemma Accept4(b0: Byte, b1: Byte, b2: Byte, b3: Byte)
    requires 239 < b0
    ensures var v := b0 as int % 16 * 262144 + b1 as int % 64 * 4096 + b2 as int % 64 * 64 + b3 as int % 64;
            && (Continues(b1) && Continues(b2) && Continues(b3) && v > 65535 && v < 1114112 <==> Utf8Four(b0, b1, b2, b3))
            && (Utf8Four(b0, b1, b2, b3) ==> v == Value4(b0, b1, b2, b3))
  {
  }

  /** The reader's arithmetic accepts exactly the UTF8-chars of RFC 3629, with their values. */
  method ReadCodePoint(buf: array<Byte>, i: nat, end: nat) returns (codePoint: Option<int>, bytesPerSequence: nat)
    requires i < end <= buf.Length
    ensures codePoint.Some? <==> CharLen(buf[i..end]) > 0
    ensures codePoint.Some? ==> bytesPerSequence == CharLen(buf[i..end]) && codePoint.value == CharAt(buf[i..end])
  {
    ghost var b := buf[i..end];
    var firstByte: int := buf[i];
    codePoint := None;
    bytesPerSequence := if firstByte > 239 then 4 else if firstByte > 223 then 3 else if firstByte > 191 then 2 else 1;
    if i + bytesPerSequence <= end {
      match bytesPerSequence {
        case 1 =>
          if firstByte < 128 { codePoint := Some(firstByte); }
        case 2 =>
          var secondByte: int := buf[i + 1];
          Accept2(firstByte, secondByte);
          if Continues(secondByte) {
            var tempCodePoint := firstByte % 32 * 64 + secondByte % 64;
            if tempCodePoint > 127 { codePoint := Some(tempCodePoint); }
          }
        case 3 =>
          var secondByte: int, thirdByte: int := buf[i + 1], buf[i + 2];
          Accept3(firstByte, secondByte, thirdByte);
          if Continues(secondByte) && Continues(thirdByte) {
            var tempCodePoint := firstByte % 16 * 4096 + secondByte % 64 * 64 + thirdByte % 64;
            if tempCodePoint > 2047 && (tempCodePoint < 55296 || tempCodePoint > 57343) {
              codePoint := Some(tempCodePoint);
            }
          }
        case _ =>
          var secondByte: int, thirdByte: int, fourthByte: int := buf[i + 1], buf[i + 2], buf[i + 3];
          Accept4(firstByte, secondByte, thirdByte, fourthByte);
          if Continues(secondByte) && Continues(thirdByte) && Continues(fourthByte) {
            var tempCodePoint := firstByte % 16 * 262144 + secondByte % 64 * 4096 + thirdByte % 64 * 64 + fourthByte % 64;
            if tempCodePoint > 65535 && tempCodePoint < 1114112 { codePoint := Some(tempCodePoint); }
          }
      }
    }
  }

  function FromBytes(b: seq<Byte>): seq<CodeUnit> { Utf16(Decode(b)) }

  /** The string for the bytes from `i` up to `end`. */
  function Unread(b: seq<Byte>, i: nat, end: nat): seq<CodeUnit>
    requires end <= |b|
  {
    if i <= end then FromBytes(b[i..end]) else []
  }

  lemma DecodeFirst(c: seq<Byte>)
    requires c != []
    ensures Decode(c) == if CharLen(c) == 0 then [REPLACEMENT] + Decode(c[1..]) else [CharAt(c)] + Decode(c[CharLen(c)..])
  {
  }

  lemma {:induction false} UnreadStep(b: seq<Byte>, i: nat, end: nat)
    requires i < end <= |b|
    ensures var n := CharLen(b[i..end]);
            Unread(b, i, end) == if n == 0 then UnitsOf(REPLACEMENT) + Unread(b, i + 1, end)
                                 else UnitsOf(CharAt(b[i..end])) + Unread(b, i + n, end)
  {
    var c := b[i..end];
    var n := if CharLen(c) == 0 then 1 else CharLen(c);
    var v := if CharLen(c) == 0 then REPLACEMENT else CharAt(c);
    DecodeFirst(c);
    hide CharAt, CharLen, UnitsOf, Decode, Utf16;
    assert c[n..] == b[i + n..end];
    Utf16More(v, Decode(c[n..]));
  }

  /** The units pushed for one decoded code point. */
  method PushUnits(before: seq<CodeUnit>, v: Scalar) returns (res: seq<CodeUnit>)
    ensures res == before + UnitsOf(v)
  {
    res := before;
    var codePoint: int := v;
    if codePoint > 65535 {
      codePoint := codePoint - 65536;
      res := res + [codePoint / 1024 % 1024 + 55296];
      codePoint := 56320 + codePoint % 1024;
    }
    res := res + [codePoint];
  }

  /** One turn of the reader's loop. */
  method ReadChar(buf: array<Byte>, i: nat, end: nat, before: seq<CodeUnit>) returns (res: seq<CodeUnit>, next: nat)
    requires i < end <= buf.Length
    ensures i < next <= end
    ensures before + Unread(buf[..], i, end) == res + Unread(buf[..], next, end)
  {
    hide Unread, UnitsOf, CharAt, CharLen, Decode, Utf16;
    UnreadStep(buf[..], i, end);
    assert buf[..][i..end] == buf[i..end];
    var codePoint, bytesPerSequence := ReadCodePoint(buf, i, end);
    if codePoint.None? {
      codePoint := Some(65533);
      bytesPerSequence := 1;
    }
    next := i + bytesPerSequence;
    var v: Scalar := codePoint.value;
    Associative(before, UnitsOf(v), Unread(buf[..], next, end));
    res := PushUnits(before, v);
  }

  method Utf8Slice(buf: array<Byte>, start: nat, last: nat) returns (text: seq<CodeUnit>)
    ensures text == Unread(buf[..], start, if last < buf.Length then last else buf.Length)
  {
    var end := if last < buf.Length then last else buf.Length;
    var res: seq<CodeUnit> := [];
    var i := start;
    ghost var all := Unread(buf[..], start, end);
    while i < end
      invariant start <= i && (start <= end ==> i <= end)
      invariant all == res + Unread(buf[..], i, end)
    {
      res, i := ReadChar(buf, i, end, res);
    }
    text := DecodeCodePointsArray(res);
  }

  const MAX_ARGUMENTS_LENGTH := 4096

  /** Converting in chunks gives the same string as converting at once. */
  method DecodeCodePointsArray(codePoints: seq<CodeUnit>) returns (res: seq<CodeUnit>)
    ensures res == codePoints
  {
    var len := |codePoints|;
    if len <= MAX_ARGUMENTS_LENGTH {
      return codePoints;
    }
    res := [];
    var i := 0;
    while i < len
      invariant 0 <= i
      invariant res == codePoints[..if i < len then i else len]
    {
      var next := i + MAX_ARGUMENTS_LENGTH;
      res := res + codePoints[i..if next < len then next else len];
      i := next;
    }
  }

  // ------------------------------------------------------------------ main results

  /** Writing then reading gives the string back exactly when it has no unpaired surrogate. */
  lemma {:induction false} StringRoundTrip(s: seq<CodeUnit>)
    ensures FromBytes(ToBytes(s, 0)) == s <==> WellFormed16(s)
  {
    DecodeEncode(Lossy(Kept(s)));
    Utf16WellFormed(Lossy(Kept(s)));
    if WellFormed16(s) {
      assert EndsInTwoLeads(s) ==> !PairedAt(s, |s| - 2);
      LossyInverse(s);
    }
  }

  /** Whatever the bytes, the reader's string has no unpaired surrogate. */
  lemma {:induction false} ReadIsWellFormed(b: seq<Byte>)
    ensures WellFormed16(FromBytes(b))
  {
    Utf16WellFormed(Decode(b));
  }

  /** Reading then writing gives the bytes back exactly when they are well-formed (section 4 of RFC 3629). */
  lemma {:induction false} BytesRoundTrip(b: seq<Byte>)
    ensures ToBytes(FromBytes(b), 0) == b <==> WellFormed8(b)
  {
    var s := FromBytes(b);
    Utf16WellFormed(Decode(b));
    assert EndsInTwoLeads(s) ==> !PairedAt(s, |s| - 2);
    EncodeDecode(b);
  }

  /**
   An unpaired surrogate is written as the three bytes of U+FFFD, with one exception: when the
   string ends in two leads the last one is dropped.
   */
  lemma {:induction false} ReplacementExact(s: seq<CodeUnit>)
    ensures ToBytes(s, 0) == Encode(Lossy(s)) <==> !EndsInTwoLeads(s)
  {
    if EndsInTwoLeads(s) {
      LossyLastLead(s);
      var vs := Lossy(Kept(s));
      EncodeAppend(vs, [REPLACEMENT]);
    }
  }

  lemma {:induction false} LossyLastLead(s: seq<CodeUnit>)
    requires EndsInTwoLeads(s)
    ensures Lossy(s) == Lossy(Kept(s)) + [REPLACEMENT]
  {
    if |s| == 2 {
      assert Lossy(s) == [REPLACEMENT] + Lossy(s[1..]);
      assert s[..1][1..] == [];
    } else {
      var n := if IsLead(s[0]) && IsTrail(s[1]) then 2 else 1;
      var t := s[n..];
      if |s| == 3 && n == 2 {
        assert false;
      }
      LossyLastLead(t);
      FrontOfTail(s, n);
    }
  }

  lemma FrontOfTail(s: seq<CodeUnit>, n: nat)
    requires n < |s|
    ensures s[..|s| - 1][n..] == s[n..][..|s| - n - 1]
  {
  }

  lemma {:induction false} EncodeAppend(vs: seq<Scalar>, ws: seq<Scalar>)
    ensures Encode(vs + ws) == Encode(vs) + Encode(ws)
  {
    if vs == [] {
      assert vs + ws == ws;
    } else {
      assert (vs + ws)[1..] == vs[1..] + ws;
      EncodeAppend(vs[1..], ws);
    }
  }
}
