/**
 Two's-complement integers of any byte width in a buffer, in both byte orders, as the front
 end's Buffer bundle writes and reads them.  Values are unbounded integers here; a JavaScript
 number holds every value of the widths the bundle is used with (one to six bytes) exactly.
 */
module IntCodec {
  import opened Common

  datatype Error = ValueOutOfBounds | IndexOutOfRange

  // ------------------------------------------------------------------ reference definitions

  function Pow256(n: nat): (p: int)
    ensures p > 0
  {
    if n == 0 then 1 else 256 * Pow256(n - 1)
  }

  /** The number a byte string denotes, least significant byte first. */
  function ValueLE(s: seq<Byte>): int {
    if s == [] then 0 else ValueLE(s[..|s| - 1]) + s[|s| - 1] as int * Pow256(|s| - 1)
  }

  /** The number a byte string denotes, most significant byte first. */
  function ValueBE(s: seq<Byte>): int {
    if s == [] then 0 else s[0] as int * Pow256(|s| - 1) + ValueBE(s[1..])
  }

  /** The value modulo 256^n, and its byte at position n. */
  function Mod256(value: int, n: nat): int { value % Pow256(n) }

  function Digit256(value: int, n: nat): int { value / Pow256(n) % 256 }

  /** The two's-complement reading of an n-byte number. */
  function Signed(v: int, n: nat): int
    requires n > 0
  {
    if v >= 128 * Pow256(n - 1) then v - Pow256(n) else v
  }

  predicate FitsSigned(value: int, n: nat)
    requires n > 0
  {
    -128 * Pow256(n - 1) <= value < 128 * Pow256(n - 1)
  }

  predicate FitsUnsigned(value: int, n: nat) { 0 <= value < Pow256(n) }

  // ------------------------------------------------------------------ JavaScript operators

  function ToInt32(x: int): int { (x + 0x8000_0000) % 0x1_0000_0000 - 0x8000_0000 }

  /** `value / mul >> 0`: an exact quotient by a power of two, rounded toward zero to 32 bits. */
  function DivToInt32(value: int, mul: int): int
    requires mul > 0
  {
    ToInt32(if value >= 0 then value / mul else -(-value / mul))
  }

  /** `x & 255`. */
  function Low8(x: int): Byte { var r: int := ToInt32(x) % 256; r }

  lemma SubMultiple(x: int, k: int)
    ensures (x - 256 * k) % 256 == x % 256
  {
  }

  lemma {:induction false} ToInt32KeepsLowByte(x: int, sub: int)
    ensures (ToInt32(x) - sub) % 256 == (x - sub) % 256
  {
    var q := (x + 0x8000_0000) / 0x1_0000_0000;
    assert ToInt32(x) == x - q * 0x1_0000_0000;
    SubMultiple(x - sub, q * 0x100_0000);
  }

  lemma {:induction false} Low8IsMod(x: int)
    ensures Low8(x) == x % 256
  {
    ToInt32KeepsLowByte(x, 0);
  }

  lemma {:induction false} Low8OfQuotient(value: int, n: nat, sub: int)
    requires sub == 0 || sub == 1
    requires sub == 1 <==> value < 0 && Mod256(value, n) != 0
    ensures Low8(DivToInt32(value, Pow256(n)) - sub) == Digit256(value, n)
  {
    hide ToInt32, Pow256;
    var mul := Pow256(n);
    var t := if value >= 0 then value / mul else -(-value / mul);
    FloorFromTruncated(value, mul);
    ToInt32KeepsLowByte(t, sub);
    Low8IsMod(ToInt32(t) - sub);
  }

  /** Rounding down is rounding toward zero, less one for a negative inexact quotient. */
  lemma {:induction false} FloorFromTruncated(value: int, mul: int)
    requires mul > 0
    ensures value < 0 ==> value / mul == -(-value / mul) - if value % mul != 0 then 1 else 0
  {
    if value < 0 {
      var q, r := -value / mul, -value % mul;
      assert -value == q * mul + r;
      if r == 0 {
        DivModUnique(value, mul, -q, 0);
      } else {
        assert value == (-q - 1) * mul + (mul - r);
        DivModUnique(value, mul, -q - 1, mul - r);
      }
    }
  }

  lemma Euclid(x: int, m: int)
    requires m > 0
    ensures x == x / m * m + x % m && 0 <= x % m < m
  {
  }

  lemma TimesPositive(d: int, m: int)
    requires m > 0
    ensures d >= 0 ==> d * m >= 0
    ensures d >= 1 ==> d * m >= m
    ensures d <= -1 ==> d * m <= -m
  {
  }

  /** A multiple of `m` nearer to 0 than `m` is 0. */
  lemma {:induction false} SmallMultiple(d: int, m: int, e: int)
    requires m > 0 && d * m == e && -m < e < m
    ensures d == 0
  {
    TimesPositive(d, m);
  }

  lemma Difference(a: int, b: int, m: int)
    ensures (a - b) * m == a * m - b * m
  {
  }

  lemma {:induction false} DivModUnique(x: int, m: int, q: int, r: int)
    requires m > 0 && 0 <= r < m && x == q * m + r
    ensures x / m == q && x % m == r
  {
    Euclid(x, m);
    Same(x, m, x / m, x % m, q, r);
  }

  lemma {:induction false} Same(x: int, m: int, q: int, r: int, q': int, r': int)
    requires m > 0 && 0 <= r < m && 0 <= r' < m
    requires x == q * m + r && x == q' * m + r'
    ensures q == q' && r == r'
  {
    Difference(q, q', m);
    SmallMultiple(q - q', m, r' - r);
  }

  /** The low n+1 bytes are the low n bytes and the byte above them. */
  lemma {:induction false} ModNext(value: int, n: nat)
    ensures Mod256(value, n + 1) == Mod256(value, n) + Digit256(value, n) * Pow256(n)
    ensures 0 <= Mod256(value, n) && 0 <= Digit256(value, n)
    ensures Mod256(value, n + 1) == 0 <==> Mod256(value, n) == 0 && Digit256(value, n) == 0
  {
    ModNextArithmetic(value, Pow256(n));
  }

  lemma {:induction false} ModNextArithmetic(value: int, m: int)
    requires m > 0
    ensures value % (256 * m) == value % m + value / m % 256 * m
    ensures value % (256 * m) == 0 <==> value % m == 0 && value / m % 256 == 0
  {
    Euclid(value, m);
    var q := value / m;
    TwoDigits(value, m, q, value % m, q / 256, q % 256);
  }

  lemma {:induction false} TwoDigits(value: int, m: int, q: int, r: int, q1: int, r1: int)
    requires m > 0 && 0 <= r < m && 0 <= r1 < 256
    requires value == q * m + r && q == q1 * 256 + r1
    ensures value % (256 * m) == r + r1 * m
    ensures value % (256 * m) == 0 <==> r == 0 && r1 == 0
  {
    Regroup(value, m, q, r, q1, r1);
    TimesPositive(r1, m);
    TimesPositive(255 - r1, m);
    Difference(255, r1, m);
    DivModUnique(value, 256 * m, q1, r1 * m + r);
  }

  lemma {:induction false} Regroup(value: int, m: int, q: int, r: int, q1: int, r1: int)
    requires value == q * m + r && q == q1 * 256 + r1
    ensures value == q1 * (256 * m) + (r1 * m + r)
  {
    assert q * m == q1 * 256 * m + r1 * m;
  }

  lemma ByteTimes(b: Byte, p: int)
    requires p > 0
    ensures 0 <= b as int * p <= 255 * p
  {
  }

  // ------------------------------------------------------------------ the byte order's value

  lemma {:induction false} AppendLE(s: seq<Byte>, b: Byte)
    ensures ValueLE(s + [b]) == ValueLE(s) + b as int * Pow256(|s|)
  {
    assert (s + [b])[..|s|] == s;
  }

  lemma {:induction false} PrependBE(b: Byte, s: seq<Byte>)
    ensures ValueBE([b] + s) == b as int * Pow256(|s|) + ValueBE(s)
  {
    assert ([b] + s)[1..] == s;
  }

  lemma {:induction false} RangeLE(s: seq<Byte>)
    ensures 0 <= ValueLE(s) < Pow256(|s|)
  {
    if s != [] {
      var n := |s| - 1;
      RangeLE(s[..n]);
      ByteTimes(s[n], Pow256(n));
    }
  }

  function Reverse(s: seq<Byte>): (r: seq<Byte>)
    ensures |r| == |s|
  {
    if s == [] then [] else Reverse(s[1..]) + [s[0]]
  }

  /** The two byte orders are mirror images. */
  lemma {:induction false} BigEndianIsReversed(s: seq<Byte>)
    ensures ValueBE(s) == ValueLE(Reverse(s))
  {
    if s != [] {
      var rest := Reverse(s[1..]);
      BigEndianIsReversed(s[1..]);
      AppendLE(rest, s[0]);
      assert Reverse(s) == rest + [s[0]] && |rest| == |s| - 1;
    }
  }

  /** Byte strings of one length are determined by their value. */
  lemma {:induction false} InjectiveLE(s: seq<Byte>, t: seq<Byte>)
    requires |s| == |t| && ValueLE(s) == ValueLE(t)
    ensures s == t
  {
    if s != [] {
      var n := |s| - 1;
      RangeLE(s[..n]);
      RangeLE(t[..n]);
      DivModUnique(ValueLE(s), Pow256(n), s[n], ValueLE(s[..n]));
      DivModUnique(ValueLE(t), Pow256(n), t[n], ValueLE(t[..n]));
      InjectiveLE(s[..n], t[..n]);
      assert s == s[..n] + [s[n]] && t == t[..n] + [t[n]];
    }
  }

  lemma {:induction false} ReverseAppend(s: seq<Byte>, b: Byte)
    ensures Reverse(s + [b]) == [b] + Reverse(s)
  {
    if s != [] {
      assert (s + [b])[1..] == s[1..] + [b];
      ReverseAppend(s[1..], b);
    }
  }

  lemma {:induction false} ReverseTwice(s: seq<Byte>)
    ensures Reverse(Reverse(s)) == s
  {
    if s != [] {
      ReverseTwice(s[1..]);
      ReverseAppend(Reverse(s[1..]), s[0]);
    }
  }

  // ------------------------------------------------------------------ writing

  /** Only the n bytes at `offset` differ. */
  ghost predicate OnlyAt(before: seq<Byte>, after: seq<Byte>, offset: nat, n: nat)
    requires offset + n <= |before|
  {
    |after| == |before| && after[..offset] == before[..offset] && after[offset + n..] == before[offset + n..]
  }

  /** The borrow: set exactly when the value is negative and some lower byte is not zero. */
  lemma {:induction false} BorrowStep(value: int, n: nat, sub: int, low: int)
    requires sub == 0 || sub == 1
    requires sub == 1 <==> value < 0 && Mod256(value, n) != 0
    requires low == Digit256(value, n)
    ensures var next := if value < 0 && sub == 0 && low != 0 then 1 else sub;
            next == 1 <==> value < 0 && Mod256(value, n + 1) != 0
  {
    ModNext(value, n);
  }

  /** The first byte written is the lowest one. */
  lemma {:induction false} FirstByte(value: int)
    ensures Low8(value) == Digit256(value, 0) == Mod256(value, 1)
    ensures Mod256(value, 0) == 0
    ensures ValueLE([Low8(value)]) == Mod256(value, 1) && ValueBE([Low8(value)]) == Mod256(value, 1)
  {
    Low8IsMod(value);
    AppendLE([], Low8(value));
    PrependBE(Low8(value), []);
    assert [] + [Low8(value)] == [Low8(value)] + [];
    assert Pow256(1) == 256 && Pow256(0) == 1;
  }

  method WriteIntLE(buf: array<Byte>, value: int, offset: nat, byteLength: nat) returns (r: Result<nat, Error>)
    requires byteLength > 0
    modifies buf
    ensures if !FitsSigned(value, byteLength) then r == Err(ValueOutOfBounds) && buf[..] == old(buf[..])
            else if offset + byteLength > buf.Length then r == Err(IndexOutOfRange) && buf[..] == old(buf[..])
            else r == Ok(offset + byteLength)
                 && OnlyAt(old(buf[..]), buf[..], offset, byteLength)
                 && ValueLE(buf[offset..offset + byteLength]) == Mod256(value, byteLength)
  {
    hide ValueLE, ValueBE, Mod256, Digit256, Low8, DivToInt32, ToInt32;
    var limit := 128 * Pow256(byteLength - 1);
    if value > limit - 1 || value < -limit { return Err(ValueOutOfBounds); }
    if offset + byteLength > buf.Length { return Err(IndexOutOfRange); }
    var i, mul, sub := 0, 1, 0;
    buf[offset] := Low8(value);
    FirstByte(value);
    assert buf[offset..offset + 1] == [buf[offset]];
    i := i + 1;
    while i < byteLength
      invariant 1 <= i <= byteLength && mul == Pow256(i - 1)
      invariant sub == 0 || sub == 1
      invariant sub == 1 <==> value < 0 && Mod256(value, i - 1) != 0
      invariant buf[offset + i - 1] == Digit256(value, i - 1)
      invariant ValueLE(buf[offset..offset + i]) == Mod256(value, i)
      invariant OnlyAt(old(buf[..]), buf[..], offset, byteLength)
    {
      BorrowStep(value, i - 1, sub, buf[offset + i - 1]);
      mul := mul * 256;
      if value < 0 && sub == 0 && buf[offset + i - 1] != 0 {
        sub := 1;
      }
      ghost var written := buf[offset..offset + i];
      buf[offset + i] := Low8(DivToInt32(value, mul) - sub);
      Low8OfQuotient(value, i, sub);
      ModNext(value, i);
      AppendLE(written, buf[offset + i]);
      assert buf[offset..offset + i + 1] == written + [buf[offset + i]];
      i := i + 1;
    }
    return Ok(offset + byteLength);
  }

  method WriteIntBE(buf: array<Byte>, value: int, offset: nat, byteLength: nat) returns (r: Result<nat, Error>)
    requires byteLength > 0
    modifies buf
    ensures if !FitsSigned(value, byteLength) then r == Err(ValueOutOfBounds) && buf[..] == old(buf[..])
            else if offset + byteLength > buf.Length then r == Err(IndexOutOfRange) && buf[..] == old(buf[..])
            else r == Ok(offset + byteLength)
                 && OnlyAt(old(buf[..]), buf[..], offset, byteLength)
                 && ValueBE(buf[offset..offset + byteLength]) == Mod256(value, byteLength)
  {
    hide ValueLE, ValueBE, Mod256, Digit256, Low8, DivToInt32, ToInt32;
    var limit := 128 * Pow256(byteLength - 1);
    if value > limit - 1 || value < -limit { return Err(ValueOutOfBounds); }
    if offset + byteLength > buf.Length { return Err(IndexOutOfRange); }
    var i, mul, sub := byteLength - 1, 1, 0;
    ghost var end, done := offset + byteLength, 1;
    buf[offset + i] := Low8(value);
    FirstByte(value);
    assert buf[offset + i..end] == [buf[offset + i]];
    i := i - 1;
    while i >= 0
      invariant -1 <= i < byteLength - 1 && done == byteLength - 1 - i && mul == Pow256(done - 1)
      invariant sub == 0 || sub == 1
      invariant sub == 1 <==> value < 0 && Mod256(value, done - 1) != 0
      invariant buf[offset + i + 1] == Digit256(value, done - 1)
      invariant ValueBE(buf[offset + i + 1..end]) == Mod256(value, done)
      invariant OnlyAt(old(buf[..]), buf[..], offset, byteLength)
    {
      BorrowStep(value, done - 1, sub, buf[offset + i + 1]);
      mul := mul * 256;
      if value < 0 && sub == 0 && buf[offset + i + 1] != 0 {
        sub := 1;
      }
      ghost var written := buf[offset + i + 1..end];
      buf[offset + i] := Low8(DivToInt32(value, mul) - sub);
      Low8OfQuotient(value, done, sub);
      ModNext(value, done);
      PrependBE(buf[offset + i], written);
      assert buf[offset + i..end] == [buf[offset + i]] + written;
      i := i - 1;
      done := done + 1;
    }
    return Ok(offset + byteLength);
  }

  method WriteUintLE(buf: array<Byte>, value: int, offset: nat, byteLength: nat) returns (r: Result<nat, Error>)
    requires byteLength > 0
    modifies buf
    ensures if !FitsUnsigned(value, byteLength) then r == Err(ValueOutOfBounds) && buf[..] == old(buf[..])
            else if offset + byteLength > buf.Length then r == Err(IndexOutOfRange) && buf[..] == old(buf[..])
            else r == Ok(offset + byteLength)
                 && OnlyAt(old(buf[..]), buf[..], offset, byteLength)
                 && ValueLE(buf[offset..offset + byteLength]) == value
  {
    hide ValueLE, ValueBE, Mod256, Digit256, Low8, DivToInt32, ToInt32;
    var maxBytes := Pow256(byteLength) - 1;
    if value > maxBytes || value < 0 { return Err(ValueOutOfBounds); }
    if offset + byteLength > buf.Length { return Err(IndexOutOfRange); }
    var mul, i := 1, 0;
    buf[offset] := Low8(value);
    FirstByte(value);
    assert buf[offset..offset + 1] == [buf[offset]];
    i := i + 1;
    while i < byteLength
      invariant 1 <= i <= byteLength && mul == Pow256(i - 1)
      invariant ValueLE(buf[offset..offset + i]) == Mod256(value, i)
      invariant OnlyAt(old(buf[..]), buf[..], offset, byteLength)
    {
      mul := mul * 256;
      ghost var written := buf[offset..offset + i];
      buf[offset + i] := Low8(DivToInt32(value, mul));
      Low8OfQuotient(value, i, 0);
      ModNext(value, i);
      AppendLE(written, buf[offset + i]);
      assert buf[offset..offset + i + 1] == written + [buf[offset + i]];
      i := i + 1;
    }
    SmallMod(value, byteLength);
    return Ok(offset + byteLength);
  }

  method WriteUintBE(buf: array<Byte>, value: int, offset: nat, byteLength: nat) returns (r: Result<nat, Error>)
    requires byteLength > 0
    modifies buf
    ensures if !FitsUnsigned(value, byteLength) then r == Err(ValueOutOfBounds) && buf[..] == old(buf[..])
            else if offset + byteLength > buf.Length then r == Err(IndexOutOfRange) && buf[..] == old(buf[..])
            else r == Ok(offset + byteLength)
                 && OnlyAt(old(buf[..]), buf[..], offset, byteLength)
                 && ValueBE(buf[offset..offset + byteLength]) == value
  {
    hide ValueLE, ValueBE, Mod256, Digit256, Low8, DivToInt32, ToInt32;
    var maxBytes := Pow256(byteLength) - 1;
    if value > maxBytes || value < 0 { return Err(ValueOutOfBounds); }
    if offset + byteLength > buf.Length { return Err(IndexOutOfRange); }
    var i, mul := byteLength - 1, 1;
    ghost var end, done := offset + byteLength, 1;
    buf[offset + i] := Low8(value);
    FirstByte(value);
    assert buf[offset + i..end] == [buf[offset + i]];
    i := i - 1;
    while i >= 0
      invariant -1 <= i < byteLength - 1 && done == byteLength - 1 - i && mul == Pow256(done - 1)
      invariant ValueBE(buf[offset + i + 1..end]) == Mod256(value, done)
      invariant OnlyAt(old(buf[..]), buf[..], offset, byteLength)
    {
      mul := mul * 256;
      ghost var written := buf[offset + i + 1..end];
      buf[offset + i] := Low8(DivToInt32(value, mul));
      Low8OfQuotient(value, done, 0);
      ModNext(value, done);
      PrependBE(buf[offset + i], written);
      assert buf[offset + i..end] == [buf[offset + i]] + written;
      i := i - 1;
      done := done + 1;
    }
    SmallMod(value, byteLength);
    return Ok(offset + byteLength);
  }

  lemma {:induction false} SmallMod(value: int, n: nat)
    requires FitsUnsigned(value, n)
    ensures Mod256(value, n) == value
  {
    DivModUnique(value, Pow256(n), 0, value);
  }

  // ------------------------------------------------------------------ reading

  lemma {:induction false} OneByte(b: Byte)
    ensures ValueLE([b]) == b && ValueBE([b]) == b
  {
    AppendLE([], b);
    PrependBE(b, []);
    assert [] + [b] == [b] + [];
  }

  /** Which end comes first, in two bytes. */
  lemma {:induction false} ByteOrder(b0: Byte, b1: Byte)
    ensures ValueLE([b0, b1]) == b0 as int + 256 * b1 as int && ValueBE([b0, b1]) == 256 * b0 as int + b1 as int
  {
    OneByte(b0);
    OneByte(b1);
    AppendLE([b0], b1);
    PrependBE(b0, [b1]);
    assert [b0] + [b1] == [b0, b1] && Pow256(1) == 256 * Pow256(0) == 256;
  }

  /** Every unsigned number that can be read can be written, in either order. */
  lemma {:induction false} ReadsAreWritable(s: seq<Byte>)
    ensures FitsUnsigned(ValueLE(s), |s|) && FitsUnsigned(ValueBE(s), |s|)
  {
    RangeLE(s);
    BigEndianIsReversed(s);
    RangeLE(Reverse(s));
  }

  method ReadUintLE(buf: array<Byte>, offset: nat, byteLength: nat) returns (r: Result<int, Error>, mul: int)
    requires byteLength > 0
    ensures if offset + byteLength > buf.Length then r == Err(IndexOutOfRange)
            else r == Ok(ValueLE(buf[offset..offset + byteLength])) && mul == Pow256(byteLength - 1)
  {
    hide ValueLE, ValueBE;
    mul := 1;
    if offset + byteLength > buf.Length { return Err(IndexOutOfRange), mul; }
    var val: int := buf[offset];
    OneByte(buf[offset]);
    assert buf[offset..offset + 1] == [buf[offset]];
    var i := 1;
    while i < byteLength
      invariant 1 <= i <= byteLength && mul == Pow256(i - 1)
      invariant val == ValueLE(buf[offset..offset + i])
    {
      mul := mul * 256;
      val := val + buf[offset + i] as int * mul;
      AppendLE(buf[offset..offset + i], buf[offset + i]);
      assert buf[offset..offset + i + 1] == buf[offset..offset + i] + [buf[offset + i]];
      i := i + 1;
    }
    r := Ok(val);
  }

  method ReadUintBE(buf: array<Byte>, offset: nat, byteLength: nat) returns (r: Result<int, Error>, mul: int)
    requires byteLength > 0
    ensures if offset + byteLength > buf.Length then r == Err(IndexOutOfRange)
            else r == Ok(ValueBE(buf[offset..offset + byteLength])) && mul == Pow256(byteLength - 1)
  {
    hide ValueLE, ValueBE;
    mul := 1;
    if offset + byteLength > buf.Length { return Err(IndexOutOfRange), mul; }
    var i := byteLength - 1;
    var val: int := buf[offset + i];
    ghost var end := offset + byteLength;
    OneByte(buf[offset + i]);
    assert buf[offset + i..end] == [buf[offset + i]];
    while i > 0
      invariant 0 <= i < byteLength && mul == Pow256(byteLength - 1 - i)
      invariant val == ValueBE(buf[offset + i..end])
    {
      mul := mul * 256;
      i := i - 1;
      val := val + buf[offset + i] as int * mul;
      PrependBE(buf[offset + i], buf[offset + i + 1..end]);
      assert buf[offset + i..end] == [buf[offset + i]] + buf[offset + i + 1..end];
    }
    r := Ok(val);
  }

  method ReadIntLE(buf: array<Byte>, offset: nat, byteLength: nat) returns (r: Result<int, Error>)
    requires byteLength > 0
    ensures if offset + byteLength > buf.Length then r == Err(IndexOutOfRange)
            else r == Ok(Signed(ValueLE(buf[offset..offset + byteLength]), byteLength))
  {
    var read, mul := ReadUintLE(buf, offset, byteLength);
    if read.Err? { return read; }
    var val := read.value;
    mul := mul * 128;
    if val >= mul { val := val - Pow256(byteLength); }
    return Ok(val);
  }

  method ReadIntBE(buf: array<Byte>, offset: nat, byteLength: nat) returns (r: Result<int, Error>)
    requires byteLength > 0
    ensures if offset + byteLength > buf.Length then r == Err(IndexOutOfRange)
            else r == Ok(Signed(ValueBE(buf[offset..offset + byteLength]), byteLength))
  {
    var read, mul := ReadUintBE(buf, offset, byteLength);
    if read.Err? { return read; }
    var val := read.value;
    mul := mul * 128;
    if val >= mul { val := val - Pow256(byteLength); }
    return Ok(val);
  }

  // ------------------------------------------------------------------ main results

  /** What was written reads back, for every value the width can hold. */
  lemma {:induction false} RoundTripLE(s: seq<Byte>, value: int)
    requires s != [] && FitsSigned(value, |s|)
    requires ValueLE(s) == Mod256(value, |s|)
    ensures Signed(ValueLE(s), |s|) == value
  {
    WrapInverse(value, |s|);
  }

  lemma {:induction false} RoundTripBE(s: seq<Byte>, value: int)
    requires s != [] && FitsSigned(value, |s|)
    requires ValueBE(s) == Mod256(value, |s|)
    ensures Signed(ValueBE(s), |s|) == value
  {
    WrapInverse(value, |s|);
  }

  lemma {:induction false} WrapInverse(value: int, n: nat)
    requires n > 0 && FitsSigned(value, n)
    ensures Signed(Mod256(value, n), n) == value
  {
    var p := Pow256(n);
    if value >= 0 {
      DivModUnique(value, p, 0, value);
    } else {
      DivModUnique(value, p, -1, value + p);
    }
  }

  /** Writing back what was read restores the bytes, for every byte string. */
  lemma {:induction false} BytesRoundTripLE(s: seq<Byte>, t: seq<Byte>)
    requires s != [] && |t| == |s|
    requires ValueLE(t) == Mod256(Signed(ValueLE(s), |s|), |s|)
    ensures FitsSigned(Signed(ValueLE(s), |s|), |s|)
    ensures t == s
  {
    var p, v := Pow256(|s|), ValueLE(s);
    RangeLE(s);
    if v >= 128 * Pow256(|s| - 1) {
      DivModUnique(v - p, p, -1, v);
    } else {
      DivModUnique(v, p, 0, v);
    }
    InjectiveLE(s, t);
  }

  lemma {:induction false} BytesRoundTripBE(s: seq<Byte>, t: seq<Byte>)
    requires s != [] && |t| == |s|
    requires ValueBE(t) == Mod256(Signed(ValueBE(s), |s|), |s|)
    ensures FitsSigned(Signed(ValueBE(s), |s|), |s|)
    ensures t == s
  {
    BigEndianIsReversed(s);
    BigEndianIsReversed(t);
    BytesRoundTripLE(Reverse(s), Reverse(t));
    ReverseTwice(s);
    ReverseTwice(t);
  }

  /** Written and read at one offset, a value that fits comes back; what does not fit is refused before anything is written. */
  method WriteThenReadLE(buf: array<Byte>, value: int, offset: nat, byteLength: nat) returns (r: Result<int, Error>)
    requires byteLength > 0
    modifies buf
    ensures r == if !FitsSigned(value, byteLength) then Err(ValueOutOfBounds)
                 else if offset + byteLength > buf.Length then Err(IndexOutOfRange)
                 else Ok(value)
    ensures r.Err? ==> buf[..] == old(buf[..])
  {
    hide FitsSigned, ValueLE, Mod256, Signed;
    var written := WriteIntLE(buf, value, offset, byteLength);
    if written.Err? { return Err(written.error); }
    RoundTripLE(buf[offset..offset + byteLength], value);
    r := ReadIntLE(buf, offset, byteLength);
  }

  method WriteThenReadBE(buf: array<Byte>, value: int, offset: nat, byteLength: nat) returns (r: Result<int, Error>)
    requires byteLength > 0
    modifies buf
    ensures r == if !FitsSigned(value, byteLength) then Err(ValueOutOfBounds)
                 else if offset + byteLength > buf.Length then Err(IndexOutOfRange)
                 else Ok(value)
    ensures r.Err? ==> buf[..] == old(buf[..])
  {
    hide FitsSigned, ValueBE, Mod256, Signed;
    var written := WriteIntBE(buf, value, offset, byteLength);
    if written.Err? { return Err(written.error); }
    RoundTripBE(buf[offset..offset + byteLength], value);
    r := ReadIntBE(buf, offset, byteLength);
  }
}
