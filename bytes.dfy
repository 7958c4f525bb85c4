/** Little-endian byte readers over the loaded file (`System.BitConverter`
    and `System.Buffer.BlockCopy` on a little-endian host), packed and
    strided, as used by the accessor engine. */
module Bytes {
  import opened Wrappers
  import Int32

  /** One octet of the loaded file. */
  newtype byte = x: int | 0 <= x < 0x100

  /** A 32-bit float kept as its raw IEEE-754 bit pattern: the model never
      interprets it, it only moves it around (and flips its sign bit). */
  datatype F32 = F32(bits: nat)

  predicate InBounds(data: seq<byte>, at: int, width: nat)
  {
    0 <= at && at + width <= |data|
  }

  function U16At(data: seq<byte>, at: int): (v: nat)
    requires InBounds(data, at, 2)
    ensures v < 0x1_0000
  {
    data[at] as nat + 0x100 * data[at + 1] as nat
  }

  function U32At(data: seq<byte>, at: int): (v: nat)
    requires InBounds(data, at, 4)
    ensures v < 0x1_0000_0000
  {
    data[at] as nat + 0x100 * data[at + 1] as nat
    + 0x1_0000 * data[at + 2] as nat + 0x100_0000 * data[at + 3] as nat
  }

  /** Two's-complement reading of the same four bytes (`ToInt32`). */
  function I32At(data: seq<byte>, at: int): (v: int)
    requires InBounds(data, at, 4)
    ensures Int32.InRange(v)
  {
    var u := U32At(data, at);
    if u > Int32.MAX then u - Int32.MODULUS else u
  }

  function F32At(data: seq<byte>, at: int): F32
    requires InBounds(data, at, 4)
  {
    F32(U32At(data, at))
  }

  /** `BitConverter.ToUInt32(data, at)`: throws unless four bytes are there. */
  function ReadU32(data: seq<byte>, at: int): (r: Run<nat>)
    ensures r.Ok? <==> InBounds(data, at, 4)
    ensures r.Ok? ==> r.value == U32At(data, at)
  {
    if InBounds(data, at, 4) then Ok(U32At(data, at)) else Fault
  }

  /** `BitConverter.ToInt32(data, at)`. */
  function ReadI32(data: seq<byte>, at: int): (r: Run<int>)
    ensures r.Ok? <==> InBounds(data, at, 4)
    ensures r.Ok? ==> r.value == I32At(data, at)
  {
    if InBounds(data, at, 4) then Ok(I32At(data, at)) else Fault
  }

  // ---------------------------------------------------------------------
  // The writer side of the wire format, used to state round trips.

  function EncodeU16(v: nat): (s: seq<byte>)
    requires v < 0x1_0000
    ensures |s| == 2
  {
    [(v % 0x100) as byte, (v / 0x100) as byte]
  }

  function EncodeU32(v: nat): (s: seq<byte>)
    requires v < 0x1_0000_0000
    ensures |s| == 4
  {
    [(v % 0x100) as byte, ((v / 0x100) % 0x100) as byte,
     ((v / 0x1_0000) % 0x100) as byte, (v / 0x100_0000) as byte]
  }

  /** The 32-bit pattern that `ToInt32` reads back as `v`. */
  function EncodeI32(v: int): (s: seq<byte>)
    requires Int32.InRange(v)
    ensures |s| == 4
  {
    EncodeU32(if v < 0 then v + Int32.MODULUS else v)
  }

  lemma U16RoundTrip(v: nat, prefix: seq<byte>, suffix: seq<byte>)
    requires v < 0x1_0000
    ensures InBounds(prefix + EncodeU16(v) + suffix, |prefix|, 2)
    ensures U16At(prefix + EncodeU16(v) + suffix, |prefix|) == v
  {
    var s := prefix + EncodeU16(v) + suffix;
    assert s[|prefix|] == (v % 0x100) as byte;
    assert s[|prefix| + 1] == (v / 0x100) as byte;
  }

  lemma U32RoundTrip(v: nat, prefix: seq<byte>, suffix: seq<byte>)
    requires v < 0x1_0000_0000
    ensures InBounds(prefix + EncodeU32(v) + suffix, |prefix|, 4)
    ensures U32At(prefix + EncodeU32(v) + suffix, |prefix|) == v
  {
    var s := prefix + EncodeU32(v) + suffix;
    var p := |prefix|;
    assert s[p] == (v % 0x100) as byte;
    assert s[p + 1] == ((v / 0x100) % 0x100) as byte;
    assert s[p + 2] == ((v / 0x1_0000) % 0x100) as byte;
    assert s[p + 3] == (v / 0x100_0000) as byte;
    Base256(v);
  }

  /** The four little-endian digits of a 32-bit value add back up to it. */
  lemma Base256(v: nat)
    requires v < 0x1_0000_0000
    ensures v == v % 0x100 + 0x100 * ((v / 0x100) % 0x100) + 0x1_0000 * ((v / 0x1_0000) % 0x100) + 0x100_0000 * (v / 0x100_0000)
  {
    var q1, q2, q3 := v / 0x100, v / 0x1_0000, v / 0x100_0000;
    assert q2 == q1 / 0x100;
    assert q3 == q2 / 0x100;
    assert q1 == q1 % 0x100 + 0x100 * q2;
    assert q2 == q2 % 0x100 + 0x100 * q3;
  }

  lemma I32RoundTrip(v: int, prefix: seq<byte>, suffix: seq<byte>)
    requires Int32.InRange(v)
    ensures InBounds(prefix + EncodeI32(v) + suffix, |prefix|, 4)
    ensures I32At(prefix + EncodeI32(v) + suffix, |prefix|) == v
  {
    U32RoundTrip(if v < 0 then v + Int32.MODULUS else v, prefix, suffix);
  }

  // ---------------------------------------------------------------------
  // Packed readers: a fresh array filled by `Buffer.BlockCopy`.

  /** `Buffer.BlockCopy(data, offset, dst, 0, nBytes)` into a `dst` of
      `dstBytes` bytes succeeds exactly when both ranges are valid. */
  predicate BlockCopyOk(data: seq<byte>, offset: int, nBytes: int, dstBytes: int)
  {
    0 <= offset && 0 <= nBytes && offset + nBytes <= |data| && nBytes <= dstBytes
  }

  /** `GetUshorts(data, offset, nBytes)`: `nBytes / 2` little-endian u16
      values; `new ushort[n]` throws for a negative n and the copy throws
      on an out-of-range source or an odd byte count. */
  function GetUshorts(data: seq<byte>, offset: int, nBytes: int): (r: Run<seq<nat>>)
    ensures r.Ok? <==> 0 <= offset && 0 <= nBytes && nBytes % 2 == 0 && offset + nBytes <= |data|
    ensures r.Ok? ==> |r.value| == nBytes / 2
    ensures r.Ok? ==> forall k :: 0 <= k < |r.value| ==> InBounds(data, offset + 2 * k, 2) && r.value[k] == U16At(data, offset + 2 * k)
  {
    var n := Int32.Div(nBytes, 2);
    if n < 0 || !BlockCopyOk(data, offset, nBytes, 2 * n) then Fault
    else Ok(seq(n, k requires 0 <= k < n => U16At(data, offset + 2 * k)))
  }

  /** `GetUints(data, offset, nBytes)`: `nBytes / 4` signed 32-bit values
      (the source copies into an `int[]`). */
  function GetUints(data: seq<byte>, offset: int, nBytes: int): (r: Run<seq<int>>)
    ensures r.Ok? <==> 0 <= offset && 0 <= nBytes && nBytes % 4 == 0 && offset + nBytes <= |data|
    ensures r.Ok? ==> |r.value| == nBytes / 4
    ensures r.Ok? ==> forall k :: 0 <= k < |r.value| ==> InBounds(data, offset + 4 * k, 4) && r.value[k] == I32At(data, offset + 4 * k)
  {
    var n := Int32.Div(nBytes, 4);
    if n < 0 || !BlockCopyOk(data, offset, nBytes, 4 * n) then Fault
    else Ok(seq(n, k requires 0 <= k < n => I32At(data, offset + 4 * k)))
  }

  /** `GetFloats(data, offset, nBytes)`: `nBytes / 4` floats. */
  function GetFloats(data: seq<byte>, offset: int, nBytes: int): (r: Run<seq<F32>>)
    ensures r.Ok? <==> 0 <= offset && 0 <= nBytes && nBytes % 4 == 0 && offset + nBytes <= |data|
    ensures r.Ok? ==> |r.value| == nBytes / 4
    ensures r.Ok? ==> forall k :: 0 <= k < |r.value| ==> InBounds(data, offset + 4 * k, 4) && r.value[k] == F32At(data, offset + 4 * k)
  {
    var n := Int32.Div(nBytes, 4);
    if n < 0 || !BlockCopyOk(data, offset, nBytes, 4 * n) then Fault
    else Ok(seq(n, k requires 0 <= k < n => F32At(data, offset + 4 * k)))
  }

  /** The three floats of group v of a successful copy: twelve bytes of
      the file, read at their own offsets. */
  lemma FloatsTriple(data: seq<byte>, offset: int, nBytes: int, v: nat)
    requires GetFloats(data, offset, nBytes).Ok? && 3 * v + 3 <= |GetFloats(data, offset, nBytes).value|
    ensures InBounds(data, offset + 12 * v, 12)
    ensures var fs := GetFloats(data, offset, nBytes).value;
      fs[3 * v] == F32At(data, offset + 12 * v) && fs[3 * v + 1] == F32At(data, offset + 12 * v + 4) &&
      fs[3 * v + 2] == F32At(data, offset + 12 * v + 8)
  {
    var fs := GetFloats(data, offset, nBytes).value;
    assert InBounds(data, offset + 4 * (3 * v + 2), 4);
    assert fs[3 * v] == F32At(data, offset + 4 * (3 * v));
    assert fs[3 * v + 1] == F32At(data, offset + 4 * (3 * v + 1));
    assert fs[3 * v + 2] == F32At(data, offset + 4 * (3 * v + 2));
  }

  function EncodeU16s(vs: seq<nat>): (s: seq<byte>)
    requires forall k :: 0 <= k < |vs| ==> vs[k] < 0x1_0000
    ensures |s| == 2 * |vs|
  {
    if vs == [] then [] else EncodeU16(vs[0]) + EncodeU16s(vs[1..])
  }

  lemma {:induction false} EncodeU16sAt(vs: seq<nat>, k: nat, prefix: seq<byte>, suffix: seq<byte>)
    requires forall j :: 0 <= j < |vs| ==> vs[j] < 0x1_0000
    requires k < |vs|
    ensures InBounds(prefix + EncodeU16s(vs) + suffix, |prefix| + 2 * k, 2)
    ensures U16At(prefix + EncodeU16s(vs) + suffix, |prefix| + 2 * k) == vs[k]
  {
    var rest := EncodeU16s(vs[1..]);
    assert prefix + EncodeU16s(vs) + suffix == prefix + EncodeU16(vs[0]) + (rest + suffix);
    if k == 0 {
      U16RoundTrip(vs[0], prefix, rest + suffix);
    } else {
      EncodeU16sAt(vs[1..], k - 1, prefix + EncodeU16(vs[0]), suffix);
      assert prefix + EncodeU16(vs[0]) + rest + suffix == prefix + EncodeU16s(vs) + suffix;
    }
  }

  lemma Halves(m: nat)
    ensures (2 * m) % 2 == 0 && (2 * m) / 2 == m
  {
  }

  /** Every u16 of a packed run reads back from its place. */
  lemma EncodeU16sRead(vs: seq<nat>, prefix: seq<byte>, suffix: seq<byte>)
    requires forall j :: 0 <= j < |vs| ==> vs[j] < 0x1_0000
    ensures |prefix + EncodeU16s(vs) + suffix| == |prefix| + 2 * |vs| + |suffix|
    ensures forall k :: 0 <= k < |vs| ==> U16At(prefix + EncodeU16s(vs) + suffix, |prefix| + 2 * k) == vs[k]
  {
    forall k | 0 <= k < |vs| ensures U16At(prefix + EncodeU16s(vs) + suffix, |prefix| + 2 * k) == vs[k] {
      EncodeU16sAt(vs, k, prefix, suffix);
    }
  }

  /** Reading back a packed run of u16 values returns exactly those values. */
  lemma GetUshortsRoundTrip(vs: seq<nat>, prefix: seq<byte>, suffix: seq<byte>)
    requires forall j :: 0 <= j < |vs| ==> vs[j] < 0x1_0000
    ensures GetUshorts(prefix + EncodeU16s(vs) + suffix, |prefix|, 2 * |vs|) == Ok(vs)
  {
    EncodeU16sRead(vs, prefix, suffix);
    Halves(|vs|);
    var r := GetUshorts(prefix + EncodeU16s(vs) + suffix, |prefix|, 2 * |vs|);
    assert r.value == vs;
  }

  // ---------------------------------------------------------------------
  // Strided readers: element k is read at `offset + k * stride`.

  function Cursor(offset: int, stride: int, k: int): int
  {
    offset + k * stride
  }

  /** Every one of the first n strided reads of `width` bytes is in range. */
  predicate StridedInBounds(data: seq<byte>, offset: int, stride: int, n: int, width: nat)
  {
    forall k :: 0 <= k < n ==> InBounds(data, Cursor(offset, stride, k), width)
  }

  function StridedFloatValues(data: seq<byte>, offset: int, stride: int, n: nat): (s: seq<F32>)
    requires StridedInBounds(data, offset, stride, n, 4)
    ensures |s| == n
  {
    seq(n, k requires 0 <= k < n => F32At(data, Cursor(offset, stride, k)))
  }

  function StridedIntValues(data: seq<byte>, offset: int, stride: int, n: nat): (s: seq<int>)
    requires StridedInBounds(data, offset, stride, n, 4)
    ensures |s| == n
  {
    seq(n, k requires 0 <= k < n => I32At(data, Cursor(offset, stride, k)))
  }

  function StridedUshortValues(data: seq<byte>, offset: int, stride: int, n: nat): (s: seq<nat>)
    requires StridedInBounds(data, offset, stride, n, 2)
    ensures |s| == n
  {
    seq(n, k requires 0 <= k < n => U16At(data, Cursor(offset, stride, k)))
  }

  /** What `GetStridedFloats` computes: `readSize / 4` floats, failing on
      a negative count or on any read past the end of the data. */
  function StridedFloats(data: seq<byte>, offset: int, readSize: int, stride: int): (r: Run<seq<F32>>)
  {
    var n := Int32.Div(readSize, 4);
    if n < 0 || !StridedInBounds(data, offset, stride, n, 4) then Fault
    else Ok(StridedFloatValues(data, offset, stride, n))
  }

  function StridedInts(data: seq<byte>, offset: int, readSize: int, stride: int): (r: Run<seq<int>>)
  {
    var n := Int32.Div(readSize, 4);
    if n < 0 || !StridedInBounds(data, offset, stride, n, 4) then Fault
    else Ok(StridedIntValues(data, offset, stride, n))
  }

  function StridedUshorts(data: seq<byte>, offset: int, readSize: int, stride: int): (r: Run<seq<nat>>)
  {
    var n := Int32.Div(readSize, 2);
    if n < 0 || !StridedInBounds(data, offset, stride, n, 2) then Fault
    else Ok(StridedUshortValues(data, offset, stride, n))
  }

  lemma StrideCoversPacked(offset: int, width: nat, n: nat, k: nat)
    requires k < n
    ensures offset <= Cursor(offset, width, k)
    ensures Cursor(offset, width, k) + width <= offset + n * width
  {
    MulMono(k + 1, n, width);
  }

  lemma {:induction false} MulMono(a: nat, b: nat, c: nat)
    requires a <= b
    ensures a * c <= b * c
  {
    if c > 0 {
      MulMono(a, b, c - 1);
    }
  }

  /** With the stride equal to the element size, the strided reader and
      the packed reader agree on every non-empty range.  (On an empty range
      the packed copy still checks its offset; the strided loop does not.) */
  lemma {:induction false} StridedFloatsArePacked(data: seq<byte>, offset: int, readSize: int)
    requires readSize >= 4 && readSize % 4 == 0
    ensures StridedFloats(data, offset, readSize, 4) == GetFloats(data, offset, readSize)
  {
    var n := readSize / 4;
    if 0 <= offset && offset + readSize <= |data| {
      forall k | 0 <= k < n ensures InBounds(data, Cursor(offset, 4, k), 4) {
        StrideCoversPacked(offset, 4, n, k);
      }
      assert StridedInBounds(data, offset, 4, n, 4);
      var packed := GetFloats(data, offset, readSize);
      var strided := StridedFloatValues(data, offset, 4, n);
      forall k | 0 <= k < n ensures strided[k] == packed.value[k] {
        assert Cursor(offset, 4, k) == offset + 4 * k;
      }
      assert strided == packed.value;
    } else if offset < 0 {
      assert !InBounds(data, Cursor(offset, 4, 0), 4);
    } else {
      assert !InBounds(data, Cursor(offset, 4, n - 1), 4);
    }
  }

  lemma {:induction false} StridedUshortsArePacked(data: seq<byte>, offset: int, readSize: int)
    requires readSize >= 2 && readSize % 2 == 0
    ensures StridedUshorts(data, offset, readSize, 2) == GetUshorts(data, offset, readSize)
  {
    var n := readSize / 2;
    if 0 <= offset && offset + readSize <= |data| {
      forall k | 0 <= k < n ensures InBounds(data, Cursor(offset, 2, k), 2) {
        StrideCoversPacked(offset, 2, n, k);
      }
      assert StridedInBounds(data, offset, 2, n, 2);
      var packed := GetUshorts(data, offset, readSize);
      var strided := StridedUshortValues(data, offset, 2, n);
      forall k | 0 <= k < n ensures strided[k] == packed.value[k] {
        assert Cursor(offset, 2, k) == offset + 2 * k;
      }
      assert strided == packed.value;
    } else if offset < 0 {
      assert !InBounds(data, Cursor(offset, 2, 0), 2);
    } else {
      assert !InBounds(data, Cursor(offset, 2, n - 1), 2);
    }
  }

  /** One unchecked `cursor += strideInBytes` after an in-range read: in
      an array of C# length the 32-bit sum is either the exact next
      cursor or, having wrapped, negative like no exact cursor past the
      end, so the next read succeeds at the same place or fails in both. */
  lemma WrappedStep(data: seq<byte>, offset: int, stride: int, f: nat, width: nat)
    requires |data| <= Int32.MAX && Int32.InRange(stride)
    requires InBounds(data, Cursor(offset, stride, f), width)
    ensures var c := Int32.Wrap(Cursor(offset, stride, f) + stride);
      && (InBounds(data, c, width) <==> InBounds(data, Cursor(offset, stride, f + 1), width))
      && (InBounds(data, c, width) ==> c == Cursor(offset, stride, f + 1))
  {
    assert Cursor(offset, stride, f + 1) == Cursor(offset, stride, f) + stride;
    Int32.WrapOnce(Cursor(offset, stride, f) + stride);
  }

  method GetStridedFloats(data: seq<byte>, offset: int, readSizeInBytes: int, strideInBytes: int) returns (r: Run<seq<F32>>)
    requires |data| <= Int32.MAX && Int32.InRange(strideInBytes)
    ensures r == StridedFloats(data, offset, readSizeInBytes, strideInBytes)
  {
    var n := Int32.Div(readSizeInBytes, 4);
    if n < 0 { return Fault; }
    var ret := new F32[n];
    var f, cursor := 0, offset;
    while f < n
      invariant 0 <= f <= n
      invariant InBounds(data, cursor, 4) <==> InBounds(data, Cursor(offset, strideInBytes, f), 4)
      invariant InBounds(data, cursor, 4) ==> cursor == Cursor(offset, strideInBytes, f)
      invariant StridedInBounds(data, offset, strideInBytes, f, 4)
      invariant forall k :: 0 <= k < f ==> ret[k] == F32At(data, Cursor(offset, strideInBytes, k))
    {
      if !InBounds(data, cursor, 4) { return Fault; }
      ret[f] := F32At(data, cursor);
      WrappedStep(data, offset, strideInBytes, f, 4);
      f, cursor := f + 1, Int32.Wrap(cursor + strideInBytes);
    }
    assert ret[..] == StridedFloatValues(data, offset, strideInBytes, n);
    r := Ok(ret[..]);
  }

  method GetStridedInts(data: seq<byte>, offset: int, readSizeInBytes: int, strideInBytes: int) returns (r: Run<seq<int>>)
    requires |data| <= Int32.MAX && Int32.InRange(strideInBytes)
    ensures r == StridedInts(data, offset, readSizeInBytes, strideInBytes)
  {
    var n := Int32.Div(readSizeInBytes, 4);
    if n < 0 { return Fault; }
    var ret := new int[n];
    var u, cursor := 0, offset;
    while u < n
      invariant 0 <= u <= n
      invariant InBounds(data, cursor, 4) <==> InBounds(data, Cursor(offset, strideInBytes, u), 4)
      invariant InBounds(data, cursor, 4) ==> cursor == Cursor(offset, strideInBytes, u)
      invariant StridedInBounds(data, offset, strideInBytes, u, 4)
      invariant forall k :: 0 <= k < u ==> ret[k] == I32At(data, Cursor(offset, strideInBytes, k))
    {
      if !InBounds(data, cursor, 4) { return Fault; }
      ret[u] := I32At(data, cursor);
      WrappedStep(data, offset, strideInBytes, u, 4);
      u, cursor := u + 1, Int32.Wrap(cursor + strideInBytes);
    }
    assert ret[..] == StridedIntValues(data, offset, strideInBytes, n);
    r := Ok(ret[..]);
  }

  method GetStridedUshorts(data: seq<byte>, offset: int, readSizeInBytes: int, strideInBytes: int) returns (r: Run<seq<nat>>)
    requires |data| <= Int32.MAX && Int32.InRange(strideInBytes)
    ensures r == StridedUshorts(data, offset, readSizeInBytes, strideInBytes)
  {
    var n := Int32.Div(readSizeInBytes, 2);
    if n < 0 { return Fault; }
    var ret := new nat[n];
    var u, cursor := 0, offset;
    while u < n
      invariant 0 <= u <= n
      invariant InBounds(data, cursor, 2) <==> InBounds(data, Cursor(offset, strideInBytes, u), 2)
      invariant InBounds(data, cursor, 2) ==> cursor == Cursor(offset, strideInBytes, u)
      invariant StridedInBounds(data, offset, strideInBytes, u, 2)
      invariant forall k :: 0 <= k < u ==> ret[k] == U16At(data, Cursor(offset, strideInBytes, k))
    {
      if !InBounds(data, cursor, 2) { return Fault; }
      ret[u] := U16At(data, cursor);
      WrappedStep(data, offset, strideInBytes, u, 2);
      u, cursor := u + 1, Int32.Wrap(cursor + strideInBytes);
    }
    assert ret[..] == StridedUshortValues(data, offset, strideInBytes, n);
    r := Ok(ret[..]);
  }
}
