/** Reshaping of float runs into vectors and matrices, the in-place
    triangle winding swap and the in-place per-axis rescale
    (the helpers `FloatsToVector2/3/Matrix4x4`, `InvertTriangles` and
    `RescaleVector3` of the loader). */
module Reshape {
  import opened Wrappers
  import opened Bytes
  import Int32

  datatype Vec2 = Vec2(x: F32, y: F32)
  datatype Vec3 = Vec3(x: F32, y: F32, z: F32)
  /** A `Matrix4x4`, as its sixteen entries in the order of the
      matrix's integer indexer. */
  datatype Mat4 = Mat4(entries: seq<F32>)

  /** Distance, in floats, between the starts of two consecutive groups:
      the natural arity unless the byte stride is larger than a packed
      group, in which case the stride rounded down to whole floats. */
  function FloatStride(arity: nat, byteStride: int): (fs: nat)
    ensures fs >= arity
    ensures byteStride <= 4 * arity ==> fs == arity
  {
    if byteStride > 4 * arity then byteStride / 4 else arity
  }

  /** Index of the first float of group v. */
  function Base(fs: nat, v: nat): nat
  {
    v * fs
  }

  /** The first n groups of `width` floats, one every fs floats, all lie
      inside a run of `len` floats. */
  predicate GroupsFit(len: nat, fs: nat, width: nat, n: int)
  {
    forall v: nat :: v < n ==> Base(fs, v) + width <= len
  }

  /** Groups are laid out left to right, so only the last one matters. */
  lemma {:induction false} GroupsFitLast(len: nat, fs: nat, width: nat, n: nat)
    requires n > 0
    ensures GroupsFit(len, fs, width, n) <==> Base(fs, n - 1) + width <= len
  {
    if Base(fs, n - 1) + width <= len {
      forall v: nat | v < n ensures Base(fs, v) + width <= len {
        MulMonotone(v, n - 1, fs);
      }
    }
  }

  /** A loop that has placed m groups places one more when it fits,
      and the next group starts fs floats further on. */
  lemma GroupsFitStep(len: nat, fs: nat, width: nat, m: nat)
    requires GroupsFit(len, fs, width, m) && Base(fs, m) + width <= len
    ensures GroupsFit(len, fs, width, m + 1)
    ensures Base(fs, m + 1) == Base(fs, m) + fs
  {
  }

  /** A group that does not fit makes every longer run fail. */
  lemma GroupsFitFails(len: nat, fs: nat, width: nat, m: nat, n: int)
    requires m < n && len < Base(fs, m) + width
    ensures !GroupsFit(len, fs, width, n)
  {
  }

  lemma MulMonotone(a: nat, b: nat, c: nat)
    requires a <= b
    ensures a * c <= b * c
  {
    assert b * c == a * c + (b - a) * c;
  }

  // ---------------------------------------------------------------------
  // Vectors of three floats.

  function Vector3At(floats: seq<F32>, fs: nat, v: nat): Vec3
    requires Base(fs, v) + 3 <= |floats|
  {
    var f := Base(fs, v);
    Vec3(floats[f], floats[f + 1], floats[f + 2])
  }

  function Vector3Values(floats: seq<F32>, fs: nat, n: nat): (vs: seq<Vec3>)
    requires GroupsFit(|floats|, fs, 3, n)
    ensures |vs| == n
  {
    seq(n, v requires 0 <= v < n => Vector3At(floats, fs, v))
  }

  /** What `FloatsToVector3(floats, nFloats, byteStride)` returns:
      `nFloats / 3` vectors, vector v starting at float v·fs; a negative
      count cannot be allocated and a read past the run throws. */
  function Vector3s(floats: seq<F32>, nFloats: int, byteStride: int): Run<seq<Vec3>>
  {
    var fs := FloatStride(3, byteStride);
    var n := Int32.Div(nFloats, 3);
    if n < 0 || !GroupsFit(|floats|, fs, 3, n) then Fault
    else Ok(Vector3Values(floats, fs, n))
  }

  method FloatsToVector3(floats: seq<F32>, nFloats: int, byteStride: int) returns (r: Run<seq<Vec3>>)
    ensures r == Vector3s(floats, nFloats, byteStride)
  {
    var floatStride := 3;
    if byteStride > 12 {
      floatStride := byteStride / 4;
    }
    var nVectors := Int32.Div(nFloats, 3);
    if nVectors < 0 { return Fault; }
    var ret := new Vec3[nVectors];
    var v, f := 0, 0;
    while v < nVectors
      invariant 0 <= v <= nVectors
      invariant f == Base(floatStride, v)
      invariant GroupsFit(|floats|, floatStride, 3, v)
      invariant forall k :: 0 <= k < v ==> ret[k] == Vector3At(floats, floatStride, k)
    {
      if f + 2 >= |floats| {
        GroupsFitFails(|floats|, floatStride, 3, v, nVectors);
        return Fault;
      }
      GroupsFitStep(|floats|, floatStride, 3, v);
      ret[v] := Vec3(floats[f + 0], floats[f + 1], floats[f + 2]);
      v, f := v + 1, f + floatStride;
    }
    assert ret[..] == Vector3Values(floats, floatStride, nVectors);
    return Ok(ret[..]);
  }

  // ---------------------------------------------------------------------
  // Vectors of two floats.

  function Vector2At(floats: seq<F32>, fs: nat, v: nat): Vec2
    requires Base(fs, v) + 2 <= |floats|
  {
    var f := Base(fs, v);
    Vec2(floats[f], floats[f + 1])
  }

  function Vector2Values(floats: seq<F32>, fs: nat, n: nat): (vs: seq<Vec2>)
    requires GroupsFit(|floats|, fs, 2, n)
    ensures |vs| == n
  {
    seq(n, v requires 0 <= v < n => Vector2At(floats, fs, v))
  }

  /** What `FloatsToVector2(floats, nFloats, byteStride)` returns. */
  function Vector2s(floats: seq<F32>, nFloats: int, byteStride: int): Run<seq<Vec2>>
  {
    var fs := FloatStride(2, byteStride);
    var n := Int32.Div(nFloats, 2);
    if n < 0 || !GroupsFit(|floats|, fs, 2, n) then Fault
    else Ok(Vector2Values(floats, fs, n))
  }

  method FloatsToVector2(floats: seq<F32>, nFloats: int, byteStride: int) returns (r: Run<seq<Vec2>>)
    ensures r == Vector2s(floats, nFloats, byteStride)
  {
    var floatStride := 2;
    if byteStride > 8 {
      floatStride := byteStride / 4;
    }
    var nVectors := Int32.Div(nFloats, 2);
    if nVectors < 0 { return Fault; }
    var ret := new Vec2[nVectors];
    var v, f := 0, 0;
    while v < nVectors
      invariant 0 <= v <= nVectors
      invariant f == Base(floatStride, v)
      invariant GroupsFit(|floats|, floatStride, 2, v)
      invariant forall k :: 0 <= k < v ==> ret[k] == Vector2At(floats, floatStride, k)
    {
      if f + 1 >= |floats| {
        GroupsFitFails(|floats|, floatStride, 2, v, nVectors);
        return Fault;
      }
      GroupsFitStep(|floats|, floatStride, 2, v);
      ret[v] := Vec2(floats[f + 0], floats[f + 1]);
      v, f := v + 1, f + floatStride;
    }
    assert ret[..] == Vector2Values(floats, floatStride, nVectors);
    return Ok(ret[..]);
  }

  // ---------------------------------------------------------------------
  // 4x4 matrices.

  function MatrixAt(floats: seq<F32>, fs: nat, m: nat): (mat: Mat4)
    requires Base(fs, m) + 16 <= |floats|
    ensures |mat.entries| == 16
  {
    var f := Base(fs, m);
    Mat4(floats[f..f + 16])
  }

  function MatrixValues(floats: seq<F32>, fs: nat, n: nat): (ms: seq<Mat4>)
    requires GroupsFit(|floats|, fs, 16, n)
    ensures |ms| == n
  {
    seq(n, m requires 0 <= m < n => MatrixAt(floats, fs, m))
  }

  /** What `FloatsToMatrix4x4(floats, nFloats, byteStride)` returns. */
  function Matrices(floats: seq<F32>, nFloats: int, byteStride: int): Run<seq<Mat4>>
  {
    var fs := FloatStride(16, byteStride);
    var n := Int32.Div(nFloats, 16);
    if n < 0 || !GroupsFit(|floats|, fs, 16, n) then Fault
    else Ok(MatrixValues(floats, fs, n))
  }

  method FloatsToMatrix4x4(floats: seq<F32>, nFloats: int, byteStride: int) returns (r: Run<seq<Mat4>>)
    ensures r == Matrices(floats, nFloats, byteStride)
  {
    var floatStride := 16;
    if byteStride > 16 * 4 {
      floatStride := byteStride / 4;
    }
    var nMatrices := Int32.Div(nFloats, 16);
    if nMatrices < 0 { return Fault; }
    var ret := new Mat4[nMatrices];
    var m, f := 0, 0;
    while m < nMatrices
      invariant 0 <= m <= nMatrices
      invariant f == Base(floatStride, m)
      invariant GroupsFit(|floats|, floatStride, 16, m)
      invariant forall k :: 0 <= k < m ==> ret[k] == MatrixAt(floats, floatStride, k)
    {
      if f + 15 >= |floats| {
        GroupsFitFails(|floats|, floatStride, 16, m, nMatrices);
        return Fault;
      }
      GroupsFitStep(|floats|, floatStride, 16, m);
      ret[m] := Mat4(floats[f..f + 16]);
      m, f := m + 1, f + floatStride;
    }
    assert ret[..] == MatrixValues(floats, floatStride, nMatrices);
    return Ok(ret[..]);
  }

  // ---------------------------------------------------------------------
  // Shape of the reshapers: counts, offsets, failure, round trips.

  /** The reshaper fails exactly on a negative count or when the last
      group runs past the floats it was given. */
  lemma Vector3sFault(floats: seq<F32>, nFloats: int, byteStride: int)
    ensures var fs := FloatStride(3, byteStride);
      Vector3s(floats, nFloats, byteStride).Fault? <==>
        nFloats <= -3 || (nFloats >= 3 && Base(fs, nFloats / 3 - 1) + 3 > |floats|)
  {
    if nFloats >= 3 {
      GroupsFitLast(|floats|, FloatStride(3, byteStride), 3, nFloats / 3);
    }
  }

  lemma Vector2sFault(floats: seq<F32>, nFloats: int, byteStride: int)
    ensures var fs := FloatStride(2, byteStride);
      Vector2s(floats, nFloats, byteStride).Fault? <==>
        nFloats <= -2 || (nFloats >= 2 && Base(fs, nFloats / 2 - 1) + 2 > |floats|)
  {
    if nFloats >= 2 {
      GroupsFitLast(|floats|, FloatStride(2, byteStride), 2, nFloats / 2);
    }
  }

  lemma MatricesFault(floats: seq<F32>, nFloats: int, byteStride: int)
    ensures var fs := FloatStride(16, byteStride);
      Matrices(floats, nFloats, byteStride).Fault? <==>
        nFloats <= -16 || (nFloats >= 16 && Base(fs, nFloats / 16 - 1) + 16 > |floats|)
  {
    if nFloats >= 16 {
      GroupsFitLast(|floats|, FloatStride(16, byteStride), 16, nFloats / 16);
    }
  }

  /** Vector v of a successful reshape holds floats v·fs, v·fs+1, v·fs+2,
      and there are `nFloats / 3` of them (C# division: a count of -1 or
      -2 floats still gives zero vectors). */
  lemma Vector3sShape(floats: seq<F32>, nFloats: int, byteStride: int, v: nat)
    requires Vector3s(floats, nFloats, byteStride).Ok?
    ensures nFloats > -3
    ensures |Vector3s(floats, nFloats, byteStride).value| == Int32.Div(nFloats, 3)
    ensures v < Int32.Div(nFloats, 3) ==>
      var f := v * FloatStride(3, byteStride);
      f + 3 <= |floats| &&
      Vector3s(floats, nFloats, byteStride).value[v] == Vec3(floats[f], floats[f + 1], floats[f + 2])
  {
    if v < Int32.Div(nFloats, 3) {
      assert Base(FloatStride(3, byteStride), v) + 3 <= |floats|;
    }
  }

  lemma Vector2sShape(floats: seq<F32>, nFloats: int, byteStride: int, v: nat)
    requires Vector2s(floats, nFloats, byteStride).Ok?
    ensures nFloats > -2
    ensures |Vector2s(floats, nFloats, byteStride).value| == Int32.Div(nFloats, 2)
    ensures v < Int32.Div(nFloats, 2) ==>
      var f := v * FloatStride(2, byteStride);
      f + 2 <= |floats| &&
      Vector2s(floats, nFloats, byteStride).value[v] == Vec2(floats[f], floats[f + 1])
  {
    if v < Int32.Div(nFloats, 2) {
      assert Base(FloatStride(2, byteStride), v) + 2 <= |floats|;
    }
  }

  function Flatten3(vs: seq<Vec3>): (fs: seq<F32>)
    ensures |fs| == 3 * |vs|
  {
    if vs == [] then [] else [vs[0].x, vs[0].y, vs[0].z] + Flatten3(vs[1..])
  }

  function Flatten2(vs: seq<Vec2>): (fs: seq<F32>)
    ensures |fs| == 2 * |vs|
  {
    if vs == [] then [] else [vs[0].x, vs[0].y] + Flatten2(vs[1..])
  }

  lemma {:induction false} Flatten3At(vs: seq<Vec3>, v: nat)
    requires v < |vs|
    ensures Flatten3(vs)[3 * v] == vs[v].x
    ensures Flatten3(vs)[3 * v + 1] == vs[v].y
    ensures Flatten3(vs)[3 * v + 2] == vs[v].z
  {
    if v > 0 {
      Flatten3At(vs[1..], v - 1);
    }
  }

  lemma {:induction false} Flatten2At(vs: seq<Vec2>, v: nat)
    requires v < |vs|
    ensures Flatten2(vs)[2 * v] == vs[v].x
    ensures Flatten2(vs)[2 * v + 1] == vs[v].y
  {
    if v > 0 {
      Flatten2At(vs[1..], v - 1);
    }
  }

  /** Packed vectors written out as floats and read back come back
      unchanged. */
  lemma Vector3sRoundTrip(vs: seq<Vec3>, byteStride: int)
    requires byteStride <= 12
    ensures Vector3s(Flatten3(vs), 3 * |vs|, byteStride) == Ok(vs)
  {
    var floats := Flatten3(vs);
    var n := |vs|;
    assert Int32.Div(3 * n, 3) == n;
    forall v: nat | v < n ensures Base(3, v) + 3 <= |floats| { }
    assert GroupsFit(|floats|, 3, 3, n);
    forall v | 0 <= v < n ensures Vector3At(floats, 3, v) == vs[v] {
      Flatten3At(vs, v);
    }
    assert Vector3Values(floats, 3, n) == vs;
  }

  lemma Vector2sRoundTrip(vs: seq<Vec2>, byteStride: int)
    requires byteStride <= 8
    ensures Vector2s(Flatten2(vs), 2 * |vs|, byteStride) == Ok(vs)
  {
    var floats := Flatten2(vs);
    var n := |vs|;
    assert Int32.Div(2 * n, 2) == n;
    forall v: nat | v < n ensures Base(2, v) + 2 <= |floats| { }
    assert GroupsFit(|floats|, 2, 2, n);
    forall v | 0 <= v < n ensures Vector2At(floats, 2, v) == vs[v] {
      Flatten2At(vs, v);
    }
    assert Vector2Values(floats, 2, n) == vs;
  }

  /** Packed floats reshaped into vectors and flattened again give back
      every float that belongs to a complete vector. */
  lemma Vector3sFlatten(floats: seq<F32>, nFloats: int, byteStride: int)
    requires 0 <= nFloats <= |floats| && byteStride <= 12
    ensures Vector3s(floats, nFloats, byteStride).Ok?
    ensures Flatten3(Vector3s(floats, nFloats, byteStride).value) == floats[..3 * (nFloats / 3)]
  {
    var n := nFloats / 3;
    forall v: nat | v < n ensures Base(3, v) + 3 <= |floats| { }
    assert GroupsFit(|floats|, 3, 3, n);
    var vs := Vector3Values(floats, 3, n);
    var flat := Flatten3(vs);
    forall i | 0 <= i < 3 * n ensures flat[i] == floats[i] {
      Flatten3At(vs, i / 3);
    }
    assert flat == floats[..3 * n];
  }

  lemma Vector2sFlatten(floats: seq<F32>, nFloats: int, byteStride: int)
    requires 0 <= nFloats <= |floats| && byteStride <= 8
    ensures Vector2s(floats, nFloats, byteStride).Ok?
    ensures Flatten2(Vector2s(floats, nFloats, byteStride).value) == floats[..2 * (nFloats / 2)]
  {
    var n := nFloats / 2;
    forall v: nat | v < n ensures Base(2, v) + 2 <= |floats| { }
    assert GroupsFit(|floats|, 2, 2, n);
    var vs := Vector2Values(floats, 2, n);
    var flat := Flatten2(vs);
    forall i | 0 <= i < 2 * n ensures flat[i] == floats[i] {
      Flatten2At(vs, i / 2);
    }
    assert flat == floats[..2 * n];
  }

  /** Packed matrices: matrix m is floats [16m, 16m+16). */
  lemma MatricesPacked(floats: seq<F32>, nFloats: int, byteStride: int, m: nat)
    requires 0 <= nFloats <= |floats| && byteStride <= 64
    ensures Matrices(floats, nFloats, byteStride).Ok?
    ensures |Matrices(floats, nFloats, byteStride).value| == nFloats / 16
    ensures m < nFloats / 16 ==> Matrices(floats, nFloats, byteStride).value[m] == Mat4(floats[16 * m..16 * m + 16])
  {
    var n := nFloats / 16;
    forall v: nat | v < n ensures Base(16, v) + 16 <= |floats| { }
    assert GroupsFit(|floats|, 16, 16, n);
  }

  // ---------------------------------------------------------------------
  // Winding swap.

  /** Number of entries that belong to a complete triangle. */
  function Whole(len: nat): nat
  {
    3 * (len / 3)
  }

  /** Entry i after the swap: entries 3t+1 and 3t+2 of every complete
      triangle t trade places; everything else stays. */
  function InvertedAt<T>(s: seq<T>, i: nat): T
    requires i < |s|
  {
    if i < Whole(|s|) && i % 3 == 1 then s[i + 1]
    else if i < Whole(|s|) && i % 3 == 2 then s[i - 1]
    else s[i]
  }

  function Inverted<T>(s: seq<T>): (r: seq<T>)
    ensures |r| == |s|
  {
    seq(|s|, i requires 0 <= i < |s| => InvertedAt(s, i))
  }

  /** Reference definition, one triangle at a time. */
  function SwapWinding<T>(s: seq<T>): (r: seq<T>)
    ensures |r| == |s|
  {
    if |s| < 3 then s else [s[0], s[2], s[1]] + SwapWinding(s[3..])
  }

  method InvertTriangles<T>(indices: array<T>)
    modifies indices
    ensures indices[..] == Inverted(old(indices[..]))
  {
    ghost var s := indices[..];
    var nTriangles := indices.Length / 3;
    var t := 0;
    while t < nTriangles
      invariant 0 <= t <= nTriangles
      invariant forall j :: 0 <= j < 3 * t ==> indices[j] == InvertedAt(s, j)
      invariant forall j :: 3 * t <= j < indices.Length ==> indices[j] == s[j]
    {
      var i := t * 3;
      var b := i + 1;
      var c := i + 2;
      var pointB := indices[b];
      indices[b] := indices[c];
      indices[c] := pointB;
      t := t + 1;
    }
    assert indices[..] == Inverted(s);
  }

  /** The pointwise swap is the triangle-by-triangle swap. */
  lemma {:induction false} InvertedIsSwapWinding<T>(s: seq<T>)
    ensures Inverted(s) == SwapWinding(s)
  {
    if |s| >= 3 {
      InvertedIsSwapWinding(s[3..]);
      var r := Inverted(s);
      var w := [s[0], s[2], s[1]] + SwapWinding(s[3..]);
      assert Whole(|s[3..]|) + 3 == Whole(|s|);
      forall i | 0 <= i < |s| ensures r[i] == w[i] {
        if i >= 3 {
          assert InvertedAt(s[3..], i - 3) == InvertedAt(s, i);
        }
      }
      assert r == w;
    }
  }

  /** Swapping twice restores the original order. */
  lemma {:induction false} SwapWindingInvolutive<T>(s: seq<T>)
    ensures SwapWinding(SwapWinding(s)) == s
  {
    if |s| >= 3 {
      SwapWindingInvolutive(s[3..]);
      var w := SwapWinding(s);
      assert w[3..] == SwapWinding(s[3..]);
      assert s == [s[0], s[1], s[2]] + s[3..];
    }
  }

  /** The swap only reorders: it is a permutation of its input. */
  lemma {:induction false} SwapWindingPermutes<T>(s: seq<T>)
    ensures multiset(SwapWinding(s)) == multiset(s)
  {
    if |s| >= 3 {
      SwapWindingPermutes(s[3..]);
      assert s == [s[0], s[1], s[2]] + s[3..];
    }
  }

  /** `InvertTriangles` on each complete triangle (a, b, c) gives
      (a, c, b) and leaves the trailing partial triangle alone. */
  lemma InvertedEntries<T>(s: seq<T>, t: nat, i: nat)
    ensures t < |s| / 3 ==>
      Inverted(s)[3 * t] == s[3 * t] && Inverted(s)[3 * t + 1] == s[3 * t + 2] && Inverted(s)[3 * t + 2] == s[3 * t + 1]
    ensures Whole(|s|) <= i < |s| ==> Inverted(s)[i] == s[i]
  {
    if t < |s| / 3 {
      assert 3 * t + 2 < Whole(|s|);
      assert (3 * t + 1) % 3 == 1 && (3 * t + 2) % 3 == 2 && (3 * t) % 3 == 0;
    }
  }

  /** `InvertTriangles` undoes itself and only reorders. */
  lemma InvertTrianglesProperties<T>(s: seq<T>)
    ensures Inverted(Inverted(s)) == s
    ensures multiset(Inverted(s)) == multiset(s)
  {
    InvertedIsSwapWinding(s);
    InvertedIsSwapWinding(Inverted(s));
    SwapWindingInvolutive(s);
    SwapWindingPermutes(s);
  }

  // ---------------------------------------------------------------------
  // Per-axis rescale.

  /** Sign-bit toggle: the float multiplied by -1. */
  function Negate(f: F32): (g: F32)
  {
    if (f.bits / 0x8000_0000) % 2 == 1 then F32(f.bits - 0x8000_0000) else F32(f.bits + 0x8000_0000)
  }

  /** A per-axis scale factor.  The loader only ever scales by +1 or -1
      on each axis, which is all this model represents. */
  datatype Factor = One | MinusOne
  datatype Scale = Scale(x: Factor, y: Factor, z: Factor)

  const Identity: Scale := Scale(One, One, One)
  /** `(-1, 1, 1)`: the glTF right-handed to Unity left-handed flip. */
  const MirrorX: Scale := Scale(MinusOne, One, One)

  function Apply(f: F32, k: Factor): F32
  {
    match k
    case One => f
    case MinusOne => Negate(f)
  }

  function Scaled(v: Vec3, s: Scale): Vec3
  {
    Vec3(Apply(v.x, s.x), Apply(v.y, s.y), Apply(v.z, s.z))
  }

  function Rescaled(vs: seq<Vec3>, s: Scale): (r: seq<Vec3>)
    ensures |r| == |vs|
  {
    seq(|vs|, i requires 0 <= i < |vs| => Scaled(vs[i], s))
  }

  method RescaleVector3(vectors: array<Vec3>, scale: Scale)
    modifies vectors
    ensures vectors[..] == Rescaled(old(vectors[..]), scale)
  {
    var nVectors := vectors.Length;
    var v, f := 0, 0;
    while v < nVectors
      invariant 0 <= v <= nVectors
      invariant forall k :: 0 <= k < v ==> vectors[k] == Scaled(old(vectors[k]), scale)
      invariant forall k :: v <= k < nVectors ==> vectors[k] == old(vectors[k])
    {
      var vec := vectors[v];
      vec := vec.(x := Apply(vec.x, scale.x));
      vec := vec.(y := Apply(vec.y, scale.y));
      vec := vec.(z := Apply(vec.z, scale.z));
      vectors[v] := vec;
      v, f := v + 1, f + 3;
    }
  }

  lemma {:induction false} NegateInvolutive(f: F32)
    ensures Negate(Negate(f)) == f
    ensures Negate(f) != f
  {
    var q := f.bits / 0x8000_0000;
    if q % 2 == 1 {
      assert (f.bits - 0x8000_0000) / 0x8000_0000 == q - 1;
    } else {
      assert (f.bits + 0x8000_0000) / 0x8000_0000 == q + 1;
    }
  }

  /** Rescaling by a ±1 factor twice restores the vectors; the identity
      scale changes nothing; the mirror changes only the x components. */
  lemma RescaledProperties(vs: seq<Vec3>, s: Scale)
    ensures Rescaled(Rescaled(vs, s), s) == vs
    ensures Rescaled(vs, Identity) == vs
    ensures forall i :: 0 <= i < |vs| ==>
      Rescaled(vs, MirrorX)[i].y == vs[i].y && Rescaled(vs, MirrorX)[i].z == vs[i].z &&
      Rescaled(vs, MirrorX)[i].x == Negate(vs[i].x) != vs[i].x
  {
    forall i | 0 <= i < |vs| ensures Rescaled(Rescaled(vs, s), s)[i] == vs[i] {
      NegateInvolutive(vs[i].x);
      NegateInvolutive(vs[i].y);
      NegateInvolutive(vs[i].z);
    }
    forall i | 0 <= i < |vs| ensures Negate(vs[i].x) != vs[i].x {
      NegateInvolutive(vs[i].x);
    }
    assert Rescaled(vs, Identity) == vs;
  }
}
