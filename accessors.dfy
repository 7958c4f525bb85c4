/** The accessor engine: from an accessor record and its buffer view to a
    typed array read out of the binary payload (section 3.6.2 of the
    glTF 2.0 specification, Accessors), as `ParseAccessorBuffer` and the
    `Get*Buffer` helpers compute it. */
module Accessors {
  import opened Wrappers
  import opened Bytes
  import opened Reshape
  import Int32
  import opened Document

  /** The `m_accessorTypesInfo` table, type strings part: the number of
      components of an element.  "MAT4" is not in the table. */
  function TypeArity(accessorType: string): (r: Option<nat>)
    ensures r.Some? <==> accessorType in {"SCALAR", "VEC2", "VEC3"}
    ensures r.Some? ==> 1 <= r.value <= 3
  {
    if accessorType == "VEC3" then Some(3)
    else if accessorType == "VEC2" then Some(2)
    else if accessorType == "SCALAR" then Some(1)
    else None
  }

  /** The table's component-type part: bytes per component. */
  function ComponentSize(componentType: int): (r: Option<nat>)
    ensures r.Some? <==> componentType in {5120, 5121, 5122, 5123, 5125, 5126}
    ensures r.Some? ==> r.value in {1, 2, 4}
  {
    if componentType == 5120 || componentType == 5121 then Some(1)
    else if componentType == 5122 || componentType == 5123 then Some(2)
    else if componentType == 5125 || componentType == 5126 then Some(4)
    else None
  }

  const FLOAT: int := 5126
  const UNSIGNED_SHORT: int := 5123
  const UNSIGNED_INT: int := 5125

  /** The option array passed down to `ParseAccessorBuffer`. */
  datatype ParseOptions = ParseOptions(rescale: bool, scaleFactor: Reshape.Scale, alignOn3: bool, invertTriangles: bool)

  /** `ResetAccessorBufferParseOptions`. */
  const DefaultOptions: ParseOptions := ParseOptions(false, Identity, false, false)

  /** The typed arrays the engine can hand back (`float[]`, `Vector2[]`,
      `Vector3[]`, `Matrix4x4[]`, `ushort[]`, `int[]`). */
  datatype TypedBuffer =
    | FloatArray(floats: seq<F32>)
    | Vector2Array(vec2s: seq<Vec2>)
    | Vector3Array(vec3s: seq<Vec3>)
    | MatrixArray(matrices: seq<Mat4>)
    | UshortArray(ushorts: seq<nat>)
    | IntArray(ints: seq<int>)

  /** Where and how an accessor is read. */
  datatype Geometry = Geometry(start: int, readSize: int, stride: int, elementSize: nat, count: int)

  /** The read geometry, with C# `int` arithmetic: the element count,
      truncated to a multiple of 3 when `align` is set; the start offset
      in the file; the number of bytes to read, capped at the view's
      length; and the stride, the element size when the view has none. */
  function GeometryOf(dataStart: int, view: BufferViewInfo, accessor: AccessorInfo, arity: nat, size: nat, align: bool): Geometry
  {
    var count := if align then Int32.Div(accessor.count, 3) * 3 else accessor.count;
    var elementSize := arity * size;
    var start := Int32.Wrap(dataStart + view.byteOffset + accessor.byteOffset);
    var wanted := Int32.Wrap(elementSize * count);
    var readSize := if wanted > view.byteLength then view.byteLength else wanted;
    var stride := if view.byteStride == 0 then elementSize else view.byteStride;
    Geometry(start, readSize, stride, elementSize, count)
  }

  function MapRun<T>(r: Run<T>, f: T -> TypedBuffer): Run<TypedBuffer>
  {
    match r
    case Fault => Fault
    case Ok(v) => Ok(f(v))
  }

  /** `GetFloatBuffer`: strided scalars are read one by one; everything
      else copies the whole view as floats and reshapes by type. */
  function FloatBuffer(glb: seq<byte>, offset: int, bufferSize: int, readSize: int, stride: int, accessorType: string): Run<TypedBuffer>
  {
    if accessorType == "SCALAR" && stride > 4 then
      MapRun(StridedFloats(glb, offset, readSize, stride), fs => FloatArray(fs))
    else
      match GetFloats(glb, offset, bufferSize)
      case Fault => Fault
      case Ok(buffer) =>
        var nFloats := Int32.Div(readSize, 4);
        if accessorType == "VEC2" then MapRun(Vector2s(buffer, nFloats, stride), vs => Vector2Array(vs))
        else if accessorType == "VEC3" then MapRun(Vector3s(buffer, nFloats, stride), vs => Vector3Array(vs))
        else if accessorType == "MAT4" then MapRun(Matrices(buffer, nFloats, stride), ms => MatrixArray(ms))
        else Ok(FloatArray(buffer))
  }

  /** `GetIntsBuffer`.  The strided branch reads `bufferSize` bytes'
      worth of elements, the packed branch `readSize` bytes. */
  function IntsBuffer(glb: seq<byte>, offset: int, bufferSize: int, readSize: int, stride: int, accessorType: string): Run<seq<int>>
  {
    if accessorType == "SCALAR" && stride > 4 then StridedInts(glb, offset, bufferSize, stride)
    else GetUints(glb, offset, readSize)
  }

  /** `GetUshortBuffer`, with the same size choice. */
  function UshortBuffer(glb: seq<byte>, offset: int, bufferSize: int, readSize: int, stride: int, accessorType: string): Run<seq<nat>>
  {
    if accessorType == "SCALAR" && stride > 2 then StridedUshorts(glb, offset, bufferSize, stride)
    else GetUshorts(glb, offset, readSize)
  }

  function InvertIf<T>(r: Run<seq<T>>, invert: bool): Run<seq<T>>
  {
    match r
    case Fault => Fault
    case Ok(s) => Ok(if invert then Inverted(s) else s)
  }

  /** The component-type switch: the typed array before rescaling, or
      `None` for a component type the switch does not handle. */
  function RawBuffer(glb: seq<byte>, g: Geometry, bufferSize: int, componentType: int, accessorType: string, invert: bool): Run<Option<TypedBuffer>>
  {
    var raw :=
      if componentType == FLOAT then FloatBuffer(glb, g.start, bufferSize, g.readSize, g.stride, accessorType)
      else if componentType == UNSIGNED_SHORT then
        MapRun(InvertIf(UshortBuffer(glb, g.start, bufferSize, g.readSize, g.stride, accessorType), invert), us => UshortArray(us))
      else MapRun(InvertIf(IntsBuffer(glb, g.start, bufferSize, g.readSize, g.stride, accessorType), invert), xs => IntArray(xs));
    if componentType !in {FLOAT, UNSIGNED_SHORT, UNSIGNED_INT} then Ok(None)
    else if raw.Fault? then Fault
    else Ok(Some(raw.value))
  }

  /** The rescale step: only a `Vector3[]` can be rescaled; the cast of
      any other array throws. */
  function RescaleStep(buffer: TypedBuffer, options: ParseOptions): Run<TypedBuffer>
  {
    if !options.rescale then Ok(buffer)
    else if buffer.Vector3Array? then Ok(Vector3Array(Rescaled(buffer.vec3s, options.scaleFactor)))
    else Fault
  }

  /** What `ParseAccessorBuffer` computes for an accessor over the views
      `views` of the file `glb` whose binary chunk starts at `dataStart`:
      `Ok(None)` where the source returns null, `Fault` where it throws.
      It is null exactly when the view index is out of range or names a
      missing view, when the type or the component type is not in the
      table, or when the component type is one the switch does not
      handle (bytes and signed shorts). */
  function AccessorBuffer(glb: seq<byte>, dataStart: int, views: seq<Option<BufferViewInfo>>, accessor: AccessorInfo, options: ParseOptions): (r: Run<Option<TypedBuffer>>)
    ensures r == Ok(None) <==>
      accessor.bufferView < 0 || accessor.bufferView >= |views| || views[accessor.bufferView].None? ||
      accessor.accessorType !in {"SCALAR", "VEC2", "VEC3"} ||
      accessor.componentType !in {FLOAT, UNSIGNED_SHORT, UNSIGNED_INT}
  {
    var bv := accessor.bufferView;
    if bv < 0 || bv >= |views| || views[bv].None? then Ok(None)
    else
      var view := views[bv].value;
      var arity := TypeArity(accessor.accessorType);
      var size := ComponentSize(accessor.componentType);
      if arity.None? || size.None? then Ok(None)
      else
        var g := GeometryOf(dataStart, view, accessor, arity.value, size.value, options.invertTriangles);
        match RawBuffer(glb, g, view.byteLength, accessor.componentType, accessor.accessorType, options.invertTriangles)
        case Fault => Fault
        case Ok(None) => Ok(None)
        case Ok(Some(buffer)) =>
          match RescaleStep(buffer, options)
          case Fault => Fault
          case Ok(b) => Ok(Some(b))
  }

  // ---------------------------------------------------------------------
  // Properties.

  /** The alignment to whole triangles is keyed to the invert-triangles
      option: the align-on-3 option has no effect at all. */
  lemma AlignOptionIgnored(glb: seq<byte>, dataStart: int, views: seq<Option<BufferViewInfo>>, accessor: AccessorInfo, options: ParseOptions, align: bool)
    ensures AccessorBuffer(glb, dataStart, views, accessor, options) ==
            AccessorBuffer(glb, dataStart, views, accessor, options.(alignOn3 := align))
  {
  }

  /** The read geometry: with no 32-bit overflow the start is the sum
      of the three offsets and the read size is the smaller of the
      element bytes and the view length; alignment keeps the largest
      multiple of 3 not above a non-negative count; the stride is the
      view's, or the element size when the view declares none. */
  lemma GeometrySpec(dataStart: int, view: BufferViewInfo, accessor: AccessorInfo, arity: nat, size: nat, align: bool)
    requires Int32.InRange(dataStart + view.byteOffset + accessor.byteOffset)
    requires Int32.InRange(accessor.count) && Int32.InRange(arity * size * accessor.count)
    ensures var g := GeometryOf(dataStart, view, accessor, arity, size, align);
      g.start == dataStart + view.byteOffset + accessor.byteOffset &&
      g.elementSize == arity * size &&
      (g.stride == if view.byteStride == 0 then arity * size else view.byteStride) &&
      (!align ==> g.count == accessor.count) &&
      (align && accessor.count >= 0 ==> g.count % 3 == 0 && accessor.count - 3 < g.count <= accessor.count) &&
      (!align ==> g.readSize == Int32.Min(arity * size * accessor.count, view.byteLength))
  {
    var g := GeometryOf(dataStart, view, accessor, arity, size, align);
    if !align {
      assert arity * size * accessor.count == g.elementSize * g.count;
    }
  }

  /** A packed float scalar accessor (stride of at most 4 bytes) copies
      its whole buffer view, whatever its element count says: the
      overshoot the engine accepts for scalar data. */
  lemma PackedScalarsReadWholeView(glb: seq<byte>, dataStart: int, views: seq<Option<BufferViewInfo>>, accessor: AccessorInfo, options: ParseOptions)
    requires 0 <= accessor.bufferView < |views| && views[accessor.bufferView].Some?
    requires accessor.accessorType == "SCALAR" && accessor.componentType == FLOAT
    requires views[accessor.bufferView].value.byteStride in {0, 4}
    requires !options.rescale
    ensures var view := views[accessor.bufferView].value;
      var start := Int32.Wrap(dataStart + view.byteOffset + accessor.byteOffset);
      var r := AccessorBuffer(glb, dataStart, views, accessor, options);
      (r.Fault? <==> GetFloats(glb, start, view.byteLength).Fault?) &&
      (r.Ok? ==> r.value == Some(FloatArray(GetFloats(glb, start, view.byteLength).value)) &&
                 |r.value.value.floats| == view.byteLength / 4)
  {
  }

  /** A float VEC3 accessor that reads successfully is the whole view
      copied as floats and grouped in threes. */
  lemma Vector3Read(glb: seq<byte>, dataStart: int, views: seq<Option<BufferViewInfo>>, accessor: AccessorInfo, options: ParseOptions)
    requires 0 <= accessor.bufferView < |views| && views[accessor.bufferView].Some?
    requires accessor.accessorType == "VEC3" && accessor.componentType == FLOAT
    requires !options.rescale
    requires AccessorBuffer(glb, dataStart, views, accessor, options).Ok?
    ensures var view := views[accessor.bufferView].value;
      var g := GeometryOf(dataStart, view, accessor, 3, 4, options.invertTriangles);
      var floats := GetFloats(glb, g.start, view.byteLength);
      floats.Ok? && Vector3s(floats.value, Int32.Div(g.readSize, 4), g.stride).Ok? &&
      AccessorBuffer(glb, dataStart, views, accessor, options) ==
        Ok(Some(Vector3Array(Vector3s(floats.value, Int32.Div(g.readSize, 4), g.stride).value)))
  {
  }

  /** A packed VEC3 float read (stride of at most 12 bytes): vector v
      holds the three floats at 12·v, 12·v + 4 and 12·v + 8 bytes past
      the start, and there are as many vectors as whole 12-byte groups in
      the read size. */
  lemma PackedTriple(glb: seq<byte>, start: int, byteLength: int, nFloats: int, stride: int, v: nat)
    requires stride <= 12
    requires GetFloats(glb, start, byteLength).Ok?
    requires Vector3s(GetFloats(glb, start, byteLength).value, nFloats, stride).Ok?
    ensures var vs := Vector3s(GetFloats(glb, start, byteLength).value, nFloats, stride).value;
      |vs| == Int32.Div(nFloats, 3) &&
      (v < |vs| ==>
         (InBounds(glb, start + 12 * v, 12) &&
          vs[v] == Vec3(F32At(glb, start + 12 * v), F32At(glb, start + 12 * v + 4), F32At(glb, start + 12 * v + 8))))
  {
    var floats := GetFloats(glb, start, byteLength).value;
    Vector3sShape(floats, nFloats, stride, v);
    if v < Int32.Div(nFloats, 3) {
      assert v * FloatStride(3, stride) == 3 * v;
      FloatsTriple(glb, start, byteLength, v);
    }
  }

  /** For index data whose count is already whole triangles, the invert
      option hands back exactly the winding-swapped indices. */
  lemma InvertSwapsWinding(glb: seq<byte>, dataStart: int, views: seq<Option<BufferViewInfo>>, accessor: AccessorInfo, options: ParseOptions)
    requires accessor.componentType in {UNSIGNED_SHORT, UNSIGNED_INT}
    requires accessor.count >= 0 && accessor.count % 3 == 0
    requires !options.rescale
    ensures var straight := AccessorBuffer(glb, dataStart, views, accessor, options.(invertTriangles := false));
      var inverted := AccessorBuffer(glb, dataStart, views, accessor, options.(invertTriangles := true));
      (straight.Ok? && straight.value.Some? && straight.value.value.UshortArray? ==>
         inverted == Ok(Some(UshortArray(Inverted(straight.value.value.ushorts))))) &&
      (straight.Ok? && straight.value.Some? && straight.value.value.IntArray? ==>
         inverted == Ok(Some(IntArray(Inverted(straight.value.value.ints))))) &&
      (straight.Fault? <==> inverted.Fault?) &&
      (straight == Ok(None) <==> inverted == Ok(None))
  {
    var bv := accessor.bufferView;
    if 0 <= bv < |views| && views[bv].Some? {
      var arity := TypeArity(accessor.accessorType);
      var size := ComponentSize(accessor.componentType);
      if arity.Some? && size.Some? {
        var view := views[bv].value;
        AlignedGeometry(dataStart, view, accessor, arity.value, size.value);
        var g := GeometryOf(dataStart, view, accessor, arity.value, size.value, false);
        RawInverted(glb, g, view.byteLength, accessor.componentType, accessor.accessorType);
      }
    }
  }

  /** A whole-triangle count is left as it is by the alignment. */
  lemma AlignedGeometry(dataStart: int, view: BufferViewInfo, accessor: AccessorInfo, arity: nat, size: nat)
    requires accessor.count >= 0 && accessor.count % 3 == 0
    ensures GeometryOf(dataStart, view, accessor, arity, size, true) == GeometryOf(dataStart, view, accessor, arity, size, false)
  {
    assert Int32.Div(accessor.count, 3) * 3 == accessor.count;
  }

  /** On one geometry, the invert flag of the index switch swaps the
      winding of what the straight read returns. */
  lemma RawInverted(glb: seq<byte>, g: Geometry, bufferSize: int, componentType: int, accessorType: string)
    requires componentType in {UNSIGNED_SHORT, UNSIGNED_INT}
    ensures var straight := RawBuffer(glb, g, bufferSize, componentType, accessorType, false);
      var inverted := RawBuffer(glb, g, bufferSize, componentType, accessorType, true);
      (straight.Ok? <==> inverted.Ok?) &&
      (straight.Ok? && straight.value.Some? ==> inverted.value.Some?) &&
      (straight.Ok? && straight.value.Some? && straight.value.value.UshortArray? ==>
         inverted == Ok(Some(UshortArray(Inverted(straight.value.value.ushorts))))) &&
      (straight.Ok? && straight.value.Some? && straight.value.value.IntArray? ==>
         inverted == Ok(Some(IntArray(Inverted(straight.value.value.ints)))))
  {
  }

  /** Rescaling applies the scale factor to every vector of a VEC3 float
      buffer and throws for any other successfully read buffer. */
  lemma RescaleSpec(glb: seq<byte>, dataStart: int, views: seq<Option<BufferViewInfo>>, accessor: AccessorInfo, options: ParseOptions)
    requires options.rescale
    ensures var plain := AccessorBuffer(glb, dataStart, views, accessor, options.(rescale := false));
      var scaled := AccessorBuffer(glb, dataStart, views, accessor, options);
      (plain.Ok? && plain.value.Some? && plain.value.value.Vector3Array? ==>
         scaled == Ok(Some(Vector3Array(Rescaled(plain.value.value.vec3s, options.scaleFactor))))) &&
      (plain.Ok? && plain.value.Some? && !plain.value.value.Vector3Array? ==> scaled.Fault?) &&
      (plain.Fault? ==> scaled.Fault?) &&
      (plain == Ok(None) ==> scaled == Ok(None))
  {
  }
}
