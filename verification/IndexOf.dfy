/** The Buffer bundle's substring search over bytes, forward and backward. */
module IndexOf {
  import opened Common

  predicate OccursAt(a: seq<Byte>, v: seq<Byte>, p: int) {
    0 <= p && p + |v| <= |a| && a[p..p + |v|] == v
  }

  /** `r` is the least occurrence at or after `from`, or -1 when there is none. */
  ghost predicate FirstFrom(a: seq<Byte>, v: seq<Byte>, from: int, r: int) {
    && (r == -1 || (from <= r && OccursAt(a, v, r)))
    && (forall p :: from <= p && (r == -1 || p < r) ==> !OccursAt(a, v, p))
  }

  /** `r` is the greatest occurrence at or before `from`, or -1 when there is none. */
  ghost predicate LastUpTo(a: seq<Byte>, v: seq<Byte>, from: int, r: int) {
    && (r == -1 || (r <= from && OccursAt(a, v, r)))
    && (forall p :: p <= from && r < p ==> !OccursAt(a, v, p))
  }

  /** Either specification leaves one possible answer. */
  lemma {:induction false} AnswerIsUnique(a: seq<Byte>, v: seq<Byte>, from: int, r: int, s: int)
    requires from >= 0 && r >= -1 && s >= -1
    ensures FirstFrom(a, v, from, r) && FirstFrom(a, v, from, s) ==> r == s
    ensures LastUpTo(a, v, from, r) && LastUpTo(a, v, from, s) ==> r == s
  {
    if FirstFrom(a, v, from, r) && FirstFrom(a, v, from, s) {
      assert (r == -1 || OccursAt(a, v, r)) && (s == -1 || OccursAt(a, v, s));
    }
    if LastUpTo(a, v, from, r) && LastUpTo(a, v, from, s) {
      assert (r == -1 || OccursAt(a, v, r)) && (s == -1 || OccursAt(a, v, s));
    }
  }

  // A comparison with an index past the pattern's end is with `undefined`, and fails.
  predicate Same(a: seq<Byte>, i: nat, v: seq<Byte>, j: nat)
    requires i < |a|
  {
    j < |v| && a[i] == v[j]
  }

  lemma {:induction false} MismatchExcludes(a: seq<Byte>, v: seq<Byte>, p: nat, i: nat)
    requires p <= i < |a| && |v| > 0 && i - p < |v| && a[i] != v[i - p]
    ensures !OccursAt(a, v, p)
  {
    if p + |v| <= |a| {
      assert a[p..p + |v|][i - p] == a[i];
    }
  }

  /** The loop index jumps back on a mismatch, to just after the candidate's start. */
  method SearchForward(arr: array<Byte>, val: seq<Byte>, byteOffset: int) returns (r: int)
    requires byteOffset >= 0
    ensures if val == [] then r == -1 else FirstFrom(arr[..], val, byteOffset, r)
  {
    var foundIndex := -1;
    var i := byteOffset;
    while i < arr.Length
      invariant byteOffset <= i
      invariant foundIndex == -1 || byteOffset <= foundIndex < i <= arr.Length
      invariant foundIndex != -1 ==> i - foundIndex < |val| && arr[foundIndex..i] == val[..i - foundIndex]
      invariant val != [] ==>
        forall p :: byteOffset <= p < (if foundIndex == -1 then i else foundIndex) ==> !OccursAt(arr[..], val, p)
      decreases arr.Length - (if foundIndex == -1 then i else foundIndex), arr.Length - i
    {
      if Same(arr[..], i, val, if foundIndex == -1 then 0 else i - foundIndex) {
        if foundIndex == -1 { foundIndex := i; }
        assert arr[foundIndex..i + 1] == arr[foundIndex..i] + [arr[i]];
        if i - foundIndex + 1 == |val| { return foundIndex; }
      } else {
        if val != [] {
          MismatchExcludes(arr[..], val, if foundIndex == -1 then i else foundIndex, i);
        }
        if foundIndex != -1 { i := i - (i - foundIndex); }
        foundIndex := -1;
      }
      i := i + 1;
    }
    return -1;
  }

  method SearchBackward(arr: array<Byte>, val: seq<Byte>, byteOffset: int) returns (r: int)
    ensures LastUpTo(arr[..], val, byteOffset, r)
    ensures byteOffset < 0 ==> r == -1
  {
    var start := byteOffset;
    if byteOffset + |val| > arr.Length { start := arr.Length - |val|; }
    var i := start;
    while i >= 0
      invariant i <= start && start <= byteOffset
      invariant forall p :: p <= byteOffset && i < p ==> !OccursAt(arr[..], val, p)
    {
      var found := true;
      var j := 0;
      while j < |val|
        invariant 0 <= j <= |val| && found
        invariant arr[i..i + j] == val[..j]
      {
        if arr[i + j] != val[j] {
          MismatchExcludes(arr[..], val, i, i + j);
          found := false;
          break;
        }
        j := j + 1;
      }
      if found { return i; }
      i := i - 1;
    }
    return -1;
  }

  /**
   bidirectionalIndexOf for a byte buffer pattern.  A negative offset counts from the end; clamping
   it to 32 bits, or to the buffer, never shows in the answer.
   */
  method BidirectionalIndexOf(buffer: array<Byte>, val: seq<Byte>, offset: int, dir: bool) returns (r: int)
    requires buffer.Length <= 2147483647
    ensures val == [] ==> r == -1
    ensures var from := if offset < 0 then buffer.Length + offset else offset;
            && (val != [] && dir ==> FirstFrom(buffer[..], val, from, r))
            && (val != [] && !dir ==> LastUpTo(buffer[..], val, from, r))
  {
    if buffer.Length == 0 { return -1; }
    var byteOffset := offset;
    if byteOffset > 2147483647 { byteOffset := 2147483647; }
    else if byteOffset < -2147483648 { byteOffset := -2147483648; }
    if byteOffset < 0 { byteOffset := buffer.Length + byteOffset; }
    if byteOffset >= buffer.Length {
      if dir { return -1; } else { byteOffset := buffer.Length - 1; }
    } else if byteOffset < 0 {
      if dir { byteOffset := 0; } else { return -1; }
    }
    if |val| == 0 { return -1; }
    if dir {
      r := SearchForward(buffer, val, byteOffset);
    } else {
      r := SearchBackward(buffer, val, byteOffset);
    }
  }
}
