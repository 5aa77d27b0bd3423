/** The Buffer bundle's Base64 routines, proved against the definitions in Base64. */
module Base64Codec {
  import opened Common
  import opened Base64

  // ------------------------------------------------------------------ encoding

  /** tripletToBase64: the four six-bit digits of a 24-bit number. */
  function TripletToBase64(num: int): seq<CodeUnit> {
    [Lookup(num / 262144 % 64), Lookup(num / 4096 % 64), Lookup(num / 64 % 64), Lookup(num % 64)]
  }

  lemma Over64(num: int, q: int, r: int)
    requires 0 <= r < 64 && num == q * 64 + r
    ensures num / 64 == q && num % 64 == r
  {
  }

  lemma Over16(num: int, q: int, r: int)
    requires 0 <= r < 16 && num == q * 16 + r
    ensures num / 16 == q
  {
  }

  lemma Over1024(num: int, q: int, r: int)
    requires 0 <= r < 1024 && num == q * 1024 + r
    ensures num / 1024 == q
  {
  }

  lemma Over4096(num: int, q: int, r: int)
    requires 0 <= r < 4096 && num == q * 4096 + r
    ensures num / 4096 == q
  {
  }

  lemma Over262144(num: int, q: int, r: int)
    requires 0 <= r < 262144 && num == q * 262144 + r
    ensures num / 262144 == q
  {
  }

  lemma {:induction false} TripletDigits(a: int, b: int, c: int)
    requires 0 <= a < 256 && 0 <= b < 256 && 0 <= c < 256
    ensures var num := a * 65536 + b * 256 + c;
            && num % 64 == c % 64
            && num / 64 % 64 == b % 16 * 4 + c / 64
            && num / 4096 % 64 == a % 4 * 16 + b / 16
            && num / 262144 % 64 == a / 4
  {
    var num := a * 65536 + b * 256 + c;
    var a1, a0, b1, b0, c1, c0 := a / 4, a % 4, b / 16, b % 16, c / 64, c % 64;
    Over64(num, a * 1024 + b * 4 + c1, c0);
    Over4096(num, a * 16 + b1, b0 * 256 + c);
    Over262144(num, a1, a0 * 65536 + b * 256 + c);
    Over64(a * 1024 + b * 4 + c1, a * 16 + b1, b0 * 4 + c1);
    Over64(a * 16 + b1, a1, a0 * 16 + b1);
    Over64(a1, 0, a1);
  }

  lemma {:induction false} TripletIsQuad(a: Byte, b: Byte, c: Byte)
    ensures TripletToBase64(a as int * 65536 + b as int * 256 + c as int) == Quad(a, b, c)
  {
    hide Lookup;
    TripletDigits(a, b, c);
  }

  lemma {:induction false} EncodeSplit(b: seq<Byte>, k: nat)
    requires 3 * k <= |b|
    ensures Encode(b) == Encode(b[..3 * k]) + Encode(b[3 * k..])
  {
    if k > 0 {
      EncodeSplit(b[3..], k - 1);
      assert b[3..][..3 * (k - 1)] == b[..3 * k][3..];
      assert b[3..][3 * (k - 1)..] == b[3 * k..];
    }
  }

  lemma {:induction false} EncodeQuad(b: seq<Byte>, i: nat, end: nat)
    requires i + 3 <= end <= |b|
    ensures Encode(b[i..end]) == Quad(b[i], b[i + 1], b[i + 2]) + Encode(b[i + 3..end])
  {
    assert b[i..end][3..] == b[i + 3..end];
  }

  /** One turn of encodeChunk's loop. */
  method AppendQuad(uint8: array<Byte>, i: nat, end: nat, before: seq<CodeUnit>) returns (output: seq<CodeUnit>)
    requires i + 3 <= end <= uint8.Length
    ensures before + Encode(uint8[i..end]) == output + Encode(uint8[i + 3..end])
  {
    var tmp: int := uint8[i] as int * 65536 + uint8[i + 1] as int * 256 + uint8[i + 2] as int;
    var quad := TripletToBase64(tmp);
    TripletIsQuad(uint8[i], uint8[i + 1], uint8[i + 2]);
    EncodeQuad(uint8[..], i, end);
    assert uint8[..][i..end] == uint8[i..end] && uint8[..][i + 3..end] == uint8[i + 3..end];
    Associative(before, quad, Encode(uint8[i + 3..end]));
    output := before + quad;
  }

  method EncodeChunk(uint8: array<Byte>, start: nat, end: nat, ghost quads: nat) returns (output: seq<CodeUnit>)
    requires end <= uint8.Length && end == start + 3 * quads
    ensures output == Encode(uint8[start..end])
  {
    output := [];
    var i := start;
    ghost var left, all := quads, Encode(uint8[start..end]);
    while i < end
      invariant end == i + 3 * left && start <= i
      invariant all == output + Encode(uint8[i..end])
    {
      output := AppendQuad(uint8, i, end, output);
      i := i + 3;
      left := left - 1;
    }
  }

  const MAX_CHUNK_LENGTH := 16383

  lemma {:induction false} EncodeRange(b: seq<Byte>, i: nat, end: nat, quads: nat)
    requires end <= |b| && end == i + 3 * quads
    ensures Encode(b[i..]) == Encode(b[i..end]) + Encode(b[end..])
  {
    EncodeSplit(b[i..], quads);
    assert b[i..][..3 * quads] == b[i..end] && b[i..][3 * quads..] == b[end..];
  }

  method AppendChunk(uint8: array<Byte>, i: nat, end: nat, ghost quads: nat, before: seq<CodeUnit>)
    returns (text: seq<CodeUnit>)
    requires end <= uint8.Length && end == i + 3 * quads
    ensures before + Encode(uint8[i..]) == text + Encode(uint8[end..])
  {
    var part := EncodeChunk(uint8, i, end, quads);
    EncodeRange(uint8[..], i, end, quads);
    assert uint8[..][i..] == uint8[i..] && uint8[..][i..end] == uint8[i..end] && uint8[..][end..] == uint8[end..];
    Associative(before, part, Encode(uint8[end..]));
    text := before + part;
  }

  function RemainderOne(tmp: int): seq<CodeUnit>
    requires 0 <= tmp < 256
  {
    [Lookup(tmp / 4), Lookup(tmp * 16 % 64), PAD, PAD]
  }

  function RemainderTwo(tmp: int): seq<CodeUnit>
    requires 0 <= tmp < 65536
  {
    [Lookup(tmp / 1024), Lookup(tmp / 16 % 64), Lookup(tmp * 4 % 64), PAD]
  }

  lemma {:induction false} RemainderDigits(a: int, b: int)
    requires 0 <= a < 256 && 0 <= b < 256
    ensures var tmp := a * 256 + b;
            tmp / 1024 == a / 4 && tmp / 16 % 64 == a % 4 * 16 + b / 16 && tmp * 4 % 64 == b % 16 * 4
    ensures a * 16 % 64 == a % 4 * 16
  {
    var tmp := a * 256 + b;
    var a1, a0, b1, b0 := a / 4, a % 4, b / 16, b % 16;
    Over1024(tmp, a1, a0 * 256 + b);
    Over16(tmp, a * 16 + b1, b0);
    Over64(a * 16 + b1, a1, a0 * 16 + b1);
    Over64(tmp * 4, a * 16 + b1, b0 * 4);
    Over64(a * 16, a1, a0 * 16);
  }

  lemma {:induction false} RemainderIsLast(a: Byte, b: Byte)
    ensures RemainderOne(a) == LastOne(a) && RemainderTwo(a as int * 256 + b as int) == LastTwo(a, b)
  {
    hide Lookup;
    RemainderDigits(a, b);
  }

  /** The last one or two bytes and their padding. */
  method EncodeRemainder(uint8: array<Byte>, extraBytes: nat, ghost whole: nat) returns (last: seq<CodeUnit>)
    requires extraBytes < 3 && uint8.Length == whole + extraBytes
    ensures last == Encode(uint8[whole..])
  {
    var len := uint8.Length;
    last := [];
    if extraBytes == 1 {
      RemainderIsLast(uint8[len - 1], 0);
      last := RemainderOne(uint8[len - 1]);
    } else if extraBytes == 2 {
      RemainderIsLast(uint8[len - 2], uint8[len - 1]);
      last := RemainderTwo(uint8[len - 2] as int * 256 + uint8[len - 1] as int);
    }
  }

  /** Encoding in chunks gives the one-pass encoding. */
  method FromByteArray(uint8: array<Byte>) returns (text: seq<CodeUnit>)
    ensures text == Encode(uint8[..])
  {
    hide Encode;
    var len := uint8.Length;
    var extraBytes := len % 3;
    text := [];
    var i := 0;
    var len2 := len - extraBytes;
    ghost var all, quads := Encode(uint8[..]), len / 3;
    ghost var chunk, done := MAX_CHUNK_LENGTH / 3, 0;  // a whole number of quads
    assert uint8[0..] == uint8[..];
    while i < len2
      invariant len2 == 3 * quads && 0 <= done <= quads
      invariant if i < len2 then i == 3 * done else done == quads
      invariant all == text + Encode(uint8[3 * done..])
    {
      var end := if i + MAX_CHUNK_LENGTH > len2 then len2 else i + MAX_CHUNK_LENGTH;
      ghost var next := if done + chunk > quads then quads else done + chunk;
      text := AppendChunk(uint8, i, end, next - done, text);
      i, done := i + MAX_CHUNK_LENGTH, next;
    }
    var last := EncodeRemainder(uint8, extraBytes, len2);
    text := text + last;
  }

  // ------------------------------------------------------------------ decoding

  method GetLens(b64: seq<CodeUnit>) returns (r: Result<(nat, nat), Error>)
    ensures if |b64| % 4 != 0 then r == Err(LengthNotMultipleOf4)
            else r == Ok((|BeforePad(b64)|, PlaceHolders(b64)))
  {
    if |b64| % 4 > 0 { return Err(LengthNotMultipleOf4); }
    var validLen := 0;  // b64.indexOf("="), or the length
    while validLen < |b64| && b64[validLen] != PAD
      invariant validLen <= |BeforePad(b64)|
    {
      validLen := validLen + 1;
    }
    return Ok((validLen, if validLen == |b64| then 0 else 4 - validLen % 4));
  }

  lemma {:induction false} QuadDigits(x: int, y: int, z: int, w: int)
    requires 0 <= x < 64 && 0 <= y < 64 && 0 <= z < 64 && 0 <= w < 64
    ensures var tmp := x * 262144 + y * 4096 + z * 64 + w;
            && tmp / 65536 % 256 == x * 4 + y / 16
            && tmp / 256 % 256 == y % 16 * 16 + z / 4
            && tmp % 256 == z % 4 * 64 + w
  {
    var tmp := x * 262144 + y * 4096 + z * 64 + w;
    assert tmp / 256 == x * 1024 + y * 16 + z / 4;
    assert tmp / 65536 == x * 4 + y / 16;
  }

  lemma {:induction false} QuadBytes(x: Sextet, y: Sextet, z: Sextet, w: Sextet)
    ensures var tmp: int := x as int * 262144 + y as int * 4096 + z as int * 64 + w as int;
            && 0 <= tmp
            && tmp / 65536 % 256 == Byte0(x, y) && tmp / 256 % 256 == Byte1(y, z) && tmp % 256 == Byte2(z, w)
  {
    QuadDigits(x, y, z, w);
  }

  lemma TooShort(t: seq<CodeUnit>)
    requires |t| < 2
    ensures DecodeChars(t) == []
  {
  }

  // The number of whole quads, the loop bound and the array length, by number of placeholders.
  lemma Lengths(validLen: nat, placeHoldersLen: nat, quads: nat)
    requires quads == validLen / 4
    requires placeHoldersLen == 4 - validLen % 4 || (placeHoldersLen == 0 && validLen % 4 == 0)
    ensures var length := (validLen + placeHoldersLen) * 3 / 4 - placeHoldersLen;
            match placeHoldersLen
            case 0 => validLen == 4 * quads && length == 3 * quads
            case 1 => validLen == 4 * quads + 3 && length == 3 * quads + 2
            case 2 => validLen == 4 * quads + 2 && length == 3 * quads + 1
            case 3 => validLen == 4 * quads + 1 && length == 3 * quads
            case _ => placeHoldersLen == 4 && validLen == 4 * quads && length == 3 * quads - 1
  {
  }

  lemma {:induction false} DecodeQuad(t: seq<CodeUnit>, i: nat)
    requires i + 4 <= |t|
    ensures DecodeChars(t[i..]) == [Byte0(RevLookup(t[i]), RevLookup(t[i + 1])), Byte1(RevLookup(t[i + 1]), RevLookup(t[i + 2])),
                                    Byte2(RevLookup(t[i + 2]), RevLookup(t[i + 3]))] + DecodeChars(t[i + 4..])
  {
    assert t[i..][4..] == t[i + 4..];
  }

  /** One turn of toByteArray's loop: four characters become three bytes. */
  method StoreQuad(b64: seq<CodeUnit>, i: nat, arr: array<Byte>, curByte: nat, ghost t: seq<CodeUnit>)
    requires i + 4 <= |t| && t <= b64 && curByte + 3 <= arr.Length
    modifies arr
    ensures arr[..curByte + 3] + DecodeChars(t[i + 4..]) == old(arr[..curByte]) + DecodeChars(t[i..])
    ensures arr[curByte + 3..] == old(arr[curByte + 3..])
  {
    hide DecodeChars, RevLookup, Byte0, Byte1, Byte2;
    var x, y, z, w := RevLookup(b64[i]), RevLookup(b64[i + 1]), RevLookup(b64[i + 2]), RevLookup(b64[i + 3]);
    var tmp: int := x as int * 262144 + y as int * 4096 + z as int * 64 + w as int;
    QuadBytes(x, y, z, w);
    ghost var before, bytes := arr[..curByte], [Byte0(x, y), Byte1(y, z), Byte2(z, w)];
    arr[curByte] := tmp / 65536 % 256;
    arr[curByte + 1] := tmp / 256 % 256;
    arr[curByte + 2] := tmp % 256;
    DecodeQuad(t, i);
    assert arr[..curByte + 3] == before + bytes;
    Associative(before, bytes, DecodeChars(t[i + 4..]));
  }

  lemma {:induction false} RemainderBytes(x: Sextet, y: Sextet, z: Sextet)
    ensures (x as int * 4 + y as int / 16) % 256 == Byte0(x, y)
    ensures var tmp: int := x as int * 1024 + y as int * 16 + z as int / 4;
            tmp / 256 % 256 == Byte0(x, y) && tmp % 256 == Byte1(y, z)
  {
    var tmp: int := x as int * 1024 + y as int * 16 + z as int / 4;
    assert tmp / 256 == x as int * 4 + y as int / 16;
  }

  /** The last two or three characters, and nothing for the other numbers of placeholders. */
  method StoreRemainder(b64: seq<CodeUnit>, i: nat, placeHoldersLen: int, arr: array<Byte>, curByte: nat)
    requires curByte <= arr.Length
    requires placeHoldersLen == 2 ==> i + 2 <= |b64| && curByte + 1 == arr.Length
    requires placeHoldersLen == 1 ==> i + 3 <= |b64| && curByte + 2 == arr.Length
    modifies arr
    ensures placeHoldersLen == 2 ==> arr[..] == old(arr[..curByte]) + DecodeChars(b64[i..i + 2])
    ensures placeHoldersLen == 1 ==> arr[..] == old(arr[..curByte]) + DecodeChars(b64[i..i + 3])
    ensures placeHoldersLen != 1 && placeHoldersLen != 2 ==> arr[..] == old(arr[..])
  {
    ghost var before := arr[..curByte];
    if placeHoldersLen == 2 {
      var x, y := RevLookup(b64[i]), RevLookup(b64[i + 1]);
      RemainderBytes(x, y, 0);
      var tmp: int := x as int * 4 + y as int / 16;
      arr[curByte] := tmp % 256;
      assert arr[..] == before + [Byte0(x, y)];
    }
    if placeHoldersLen == 1 {
      var x, y, z := RevLookup(b64[i]), RevLookup(b64[i + 1]), RevLookup(b64[i + 2]);
      RemainderBytes(x, y, z);
      var tmp: int := x as int * 1024 + y as int * 16 + z as int / 4;
      arr[curByte] := tmp / 256 % 256;
      arr[curByte + 1] := tmp % 256;
      assert arr[..] == before + [Byte0(x, y), Byte1(y, z)];
    }
  }

  /** The loop over whole quads. */
  method StoreQuads(b64: seq<CodeUnit>, len2: int, arr: array<Byte>, ghost quads: nat, ghost t: seq<CodeUnit>)
    returns (i: nat, curByte: nat)
    requires t <= b64 && 4 * quads <= |t| && 4 * quads - 4 < len2 <= 4 * quads && 3 * quads <= arr.Length
    requires forall k :: 0 <= k < arr.Length ==> arr[k] == 0
    modifies arr
    ensures i == 4 * quads && curByte == 3 * quads
    ensures DecodeChars(t) == arr[..curByte] + DecodeChars(t[i..])
    ensures forall k :: curByte <= k < arr.Length ==> arr[k] == 0
  {
    hide DecodeChars;
    assert DecodeChars(t) == [] + DecodeChars(t);
    i, curByte := 0, 0;
    ghost var done, want := 0, DecodeChars(t);
    assert t[0..] == t;
    while i < len2
      invariant 0 <= done <= quads && i == 4 * done && curByte == 3 * done
      invariant want == arr[..curByte] + DecodeChars(t[i..])
      invariant forall k :: curByte <= k < arr.Length ==> arr[k] == 0
    {
      StoreQuad(b64, i, arr, curByte, t);
      curByte := curByte + 3;
      i := i + 4;
      done := done + 1;
    }
  }

  method ToByteArray(b64: seq<CodeUnit>) returns (r: Result<array<Byte>, Error>)
    ensures match ToBytes(b64)
            case Err(e) => r == Err(e)
            case Ok(bytes) => r.Ok? && r.value[..] == bytes
  {
    hide DecodeChars, BeforePad;
    var lens := GetLens(b64);
    if lens.Err? { return Err(lens.error); }
    var validLen: int, placeHoldersLen: int := lens.value.0, lens.value.1;
    ghost var quads := validLen / 4;
    Lengths(validLen, placeHoldersLen, quads);
    var length := (validLen + placeHoldersLen) * 3 / 4 - placeHoldersLen;
    if length < 0 { return Err(NegativeArrayLength); }
    ghost var t := Payload(b64);
    var arr := new Byte[length](_ => 0);
    var len2 := if placeHoldersLen > 0 then validLen - 4 else validLen;
    if placeHoldersLen == 4 { quads := quads - 1; }
    var i, curByte := StoreQuads(b64, len2, arr, quads, t);
    assert t[i..] == b64[i..|t|];
    assert arr[..] == arr[..curByte] + arr[curByte..];
    ghost var stored, rest := arr[..curByte], DecodeChars(t[i..]);
    if |t[i..]| < 2 { TooShort(t[i..]); }
    StoreRemainder(b64, i, placeHoldersLen, arr, curByte);
    if placeHoldersLen == 1 || placeHoldersLen == 2 {
      assert arr[..] == DecodeChars(t);
    } else {
      assert rest == [] && stored == DecodeChars(t);
      assert arr[..] == stored + if placeHoldersLen == 4 then [0, 0] else [];
    }
    return Ok(arr);
  }
}
