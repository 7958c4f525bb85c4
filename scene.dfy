/** The values the loader builds from a document and the specification
    functions of its stages: the memoised accessor records, the meshes
    assembled from them, the images, and the wiring of the node
    hierarchy with its handedness flips and material fallbacks. */
module Scene {
  import opened Wrappers
  import opened Json
  import opened Bytes
  import Int32
  import opened Document
  import Accessors
  import Reshape
  import Materials
  import Parents
  import Textures

  // ---------------------------------------------------------------------
  // The resumable array-filling loops.

  /** What a stage loop has written after visiting the list indices
      [lo, hi): each visited token either leaves its slot alone
      (`Ok(None)`: the loop `continue`s), writes a value into it, or
      throws; a write past the end of the array throws too. */
  function Fill<T>(base: seq<T>, list: seq<Token>, lo: nat, hi: nat, slot: Token -> Run<Option<T>>): (r: Run<seq<T>>)
    requires hi <= |list|
    decreases hi
  {
    if hi <= lo then Ok(base)
    else
      match Fill(base, list, lo, hi - 1, slot)
      case Fault => Fault
      case Ok(o) =>
        match slot(list[hi - 1])
        case Fault => Fault
        case Ok(None) => Ok(o)
        case Ok(Some(v)) => if hi - 1 < |o| then Ok(o[hi - 1 := v]) else Fault
  }

  /** The filled array has the base's length; slot j holds what the j-th
      token writes when j was visited and writes, and the base's entry
      otherwise. */
  lemma {:induction false} FillSpec<T>(base: seq<T>, list: seq<Token>, lo: nat, hi: nat, slot: Token -> Run<Option<T>>)
    requires hi <= |list|
    requires Fill(base, list, lo, hi, slot).Ok?
    ensures |Fill(base, list, lo, hi, slot).value| == |base|
    ensures forall j :: 0 <= j < |base| ==>
      Fill(base, list, lo, hi, slot).value[j] ==
        if lo <= j < hi && slot(list[j]).Ok? && slot(list[j]).value.Some? then slot(list[j]).value.value else base[j]
    ensures forall j :: lo <= j < hi ==> slot(list[j]).Ok?
    decreases hi
  {
    if hi > lo {
      FillSpec(base, list, lo, hi - 1, slot);
    }
  }

  /** One more visit: a skipped token leaves the array alone, a written
      one sets its slot. */
  lemma FillStep<T>(base: seq<T>, list: seq<Token>, lo: nat, i: nat, slot: Token -> Run<Option<T>>, o: seq<T>)
    requires lo <= i < |list| && Fill(base, list, lo, i, slot) == Ok(o)
    ensures slot(list[i]).Fault? ==> Fill(base, list, lo, i + 1, slot).Fault?
    ensures slot(list[i]) == Ok(None) ==> Fill(base, list, lo, i + 1, slot) == Ok(o)
    ensures slot(list[i]).Ok? && slot(list[i]).value.Some? && i < |o| ==> Fill(base, list, lo, i + 1, slot) == Ok(o[i := slot(list[i]).value.value])
    ensures slot(list[i]).Ok? && slot(list[i]).value.Some? && i >= |o| ==> Fill(base, list, lo, i + 1, slot).Fault?
  {
  }

  /** Once a visit has thrown, visiting more indices still throws. */
  lemma {:induction false} FillFaultPersists<T>(base: seq<T>, list: seq<Token>, lo: nat, k: nat, m: nat, slot: Token -> Run<Option<T>>)
    requires k <= m <= |list|
    requires Fill(base, list, lo, k, slot).Fault?
    ensures Fill(base, list, lo, m, slot).Fault?
    decreases m - k
  {
    if k < m {
      FillFaultPersists(base, list, lo, k, m - 1, slot);
    }
  }

  // ---------------------------------------------------------------------
  // The accessor records and their cache.

  /** An accessor record: whether its buffer has been parsed, the buffer
      that parse produced, and the description read by `ParseAccessor`. */
  datatype AccessorSlot = AccessorSlot(parsed: bool, buffer: Option<Accessors.TypedBuffer>, info: AccessorInfo)

  type Cache = seq<Option<AccessorSlot>>

  /** The record `ParseAccessors` stores for an accessor dictionary. */
  function NewSlot(accessor: Dictionary): AccessorSlot
  {
    AccessorSlot(false, None, ParseAccessor(accessor))
  }

  /** `ParseAccessorBuffer`: the typed buffer an accessor description
      yields under some options, read from the chunk bytes through the
      buffer views. The stages below are stated for any such parser; the
      loader's constructor fixes it to `Accessors.AccessorBuffer`. */
  type AccessorParser = (seq<byte>, int, seq<Option<BufferViewInfo>>, AccessorInfo, Accessors.ParseOptions) -> Run<Option<Accessors.TypedBuffer>>

  /** The buffer a cache lookup returns and the cache it leaves. */
  datatype Lookup = Lookup(buffer: Run<Option<Accessors.TypedBuffer>>, cache: Cache)

  /** A cache only ever gains parsed buffers: it keeps its length, its
      missing records and every record's description, and a record
      already parsed stays as it is. */
  predicate Extends(before: Cache, after: Cache)
  {
    && |after| == |before|
    && forall j :: 0 <= j < |before| ==>
         && (before[j].None? <==> after[j].None?)
         && (before[j].Some? ==> after[j].value.info == before[j].value.info)
         && (before[j].Some? && before[j].value.parsed ==> after[j] == before[j])
  }

  lemma ExtendsTransitive(a: Cache, b: Cache, c: Cache)
    requires Extends(a, b) && Extends(b, c)
    ensures Extends(a, c)
  {
  }

  /** `GetAccessorBuffer`: null for a negative index, an index past the
      records or a missing record; the stored buffer once the record is
      parsed, whatever the options; otherwise `ParseAccessorBuffer`,
      which stores its buffer and marks the record parsed only when it
      produced one. */
  function CacheLookup(cache: Cache, index: int, parse: AccessorParser, glb: seq<byte>, dataStart: int,
                       views: seq<Option<BufferViewInfo>>, options: Accessors.ParseOptions): (l: Lookup)
    ensures Extends(cache, l.cache)
    ensures (index < 0 || index >= |cache| || cache[index].None?) ==> l == Lookup(Ok(None), cache)
    ensures 0 <= index < |cache| && cache[index].Some? && cache[index].value.parsed ==>
      l == Lookup(Ok(cache[index].value.buffer), cache)
    ensures forall j :: 0 <= j < |cache| && j != index ==> l.cache[j] == cache[j]
    ensures l.cache != cache ==>
      (l.buffer.Ok? && l.buffer.value.Some? &&
       l.cache == cache[index := Some(cache[index].value.(parsed := true, buffer := l.buffer.value))])
  {
    if index < 0 || index >= |cache| || cache[index].None? then Lookup(Ok(None), cache)
    else
      var slot := cache[index].value;
      if slot.parsed then Lookup(Ok(slot.buffer), cache)
      else
        match parse(glb, dataStart, views, slot.info, options)
        case Ok(Some(b)) => Lookup(Ok(Some(b)), cache[index := Some(slot.(parsed := true, buffer := Some(b)))])
        case other => Lookup(other, cache)
  }

  /** The memo: a lookup that produced a buffer has stored it, and every
      later lookup of the same record returns that buffer and changes
      nothing, whatever options it passes. */
  lemma LookupIdempotent(cache: Cache, index: int, parse: AccessorParser, glb: seq<byte>, dataStart: int,
                         views: seq<Option<BufferViewInfo>>, o1: Accessors.ParseOptions, o2: Accessors.ParseOptions)
    requires CacheLookup(cache, index, parse, glb, dataStart, views, o1).buffer.Ok?
    requires CacheLookup(cache, index, parse, glb, dataStart, views, o1).buffer.value.Some?
    ensures var l1 := CacheLookup(cache, index, parse, glb, dataStart, views, o1);
      CacheLookup(l1.cache, index, parse, glb, dataStart, views, o2) == l1
  {
  }

  /** An unparsed record is parsed afresh on every lookup until one
      succeeds: a lookup that produced no buffer leaves the cache as it
      was. */
  lemma LookupFailureNotCached(cache: Cache, index: int, parse: AccessorParser, glb: seq<byte>, dataStart: int,
                               views: seq<Option<BufferViewInfo>>, options: Accessors.ParseOptions)
    requires !(CacheLookup(cache, index, parse, glb, dataStart, views, options).buffer.Ok? &&
               CacheLookup(cache, index, parse, glb, dataStart, views, options).buffer.value.Some?)
    ensures CacheLookup(cache, index, parse, glb, dataStart, views, options).cache == cache
  {
  }

  // ---------------------------------------------------------------------
  // Meshes.

  /** The options `LoadMeshFrom` passes: positions and normals are
      mirrored on X, indices have their winding inverted (which also
      truncates their count to whole triangles), UVs are read as is. */
  const PositionOptions: Accessors.ParseOptions := Accessors.ParseOptions(true, Reshape.MirrorX, false, false)
  const IndexOptions: Accessors.ParseOptions := Accessors.ParseOptions(false, Reshape.Identity, false, true)
  const NormalOptions: Accessors.ParseOptions := PositionOptions
  const UvOptions: Accessors.ParseOptions := Accessors.DefaultOptions

  datatype IndexBuffer = U16Indices(u16: seq<nat>) | U32Indices(u32: seq<int>)

  /** A single-submesh mesh as `LoadMeshFrom` fills it: vertices, the
      normals and UVs when their buffers have the right type, the
      triangle indices, and whether the engine was asked to recompute the
      normals. */
  datatype SubmeshData = SubmeshData(
    vertices: seq<Reshape.Vec3>,
    normals: Option<seq<Reshape.Vec3>>,
    uvs: Option<seq<Reshape.Vec2>>,
    indices: Option<IndexBuffer>,
    recalculatedNormals: bool)

  /** The `new Mesh()` returned when positions or indices are unusable. */
  const EmptySubmesh: SubmeshData := SubmeshData([], None, None, None, false)

  datatype Loaded = Loaded(submesh: SubmeshData, cache: Cache)

  /** The index buffers a mesh can take. */
  predicate IsIndexBuffer(b: Accessors.TypedBuffer)
  {
    b.UshortArray? || b.IntArray?
  }

  function IndexBufferOf(b: Accessors.TypedBuffer): IndexBuffer
  {
    if b.UshortArray? then U16Indices(b.ushorts) else if b.IntArray? then U32Indices(b.ints) else U32Indices([])
  }

  /** The specification of `LoadMeshFrom` on the accessor indices
      (positions, normals, UVs, indices) of one submesh: four cache
      lookups, in the order positions, indices, normals, UVs, each with
      its own options. */
  function SubmeshFrom(cache: Cache, parse: AccessorParser, glb: seq<byte>, dataStart: int, views: seq<Option<BufferViewInfo>>,
                       positions: int, normals: int, uvs: int, indices: int): (r: Run<Loaded>)
    ensures r.Ok? ==> Extends(cache, r.value.cache)
  {
    var lp := CacheLookup(cache, positions, parse, glb, dataStart, views, PositionOptions);
    if lp.buffer.Fault? then Fault
    else if lp.buffer.value.None? then Ok(Loaded(EmptySubmesh, lp.cache))
    else
      var li := CacheLookup(lp.cache, indices, parse, glb, dataStart, views, IndexOptions);
      if li.buffer.Fault? then Fault
      else if li.buffer.value.None? then Ok(Loaded(EmptySubmesh, li.cache))
      else
        var pos := lp.buffer.value.value;
        var idx := li.buffer.value.value;
        if !pos.Vector3Array? || !IsIndexBuffer(idx) then Ok(Loaded(EmptySubmesh, li.cache))
        else
          var ln := CacheLookup(li.cache, normals, parse, glb, dataStart, views, NormalOptions);
          if ln.buffer.Fault? then Fault
          else
            var lu := CacheLookup(ln.cache, uvs, parse, glb, dataStart, views, UvOptions);
            if lu.buffer.Fault? then Fault
            else
              var n := ln.buffer.value;
              var u := lu.buffer.value;
              var sub := SubmeshData(
                pos.vec3s,
                if n.Some? && n.value.Vector3Array? then Some(n.value.vec3s) else None,
                if u.Some? && u.value.Vector2Array? then Some(u.value.vec2s) else None,
                Some(IndexBufferOf(idx)),
                n.None?);
              ExtendsTransitive(cache, lp.cache, li.cache);
              ExtendsTransitive(cache, li.cache, ln.cache);
              Ok(Loaded(sub, lu.cache))
  }

  /** A submesh gets geometry exactly when its positions are a `Vector3[]`
      and its indices a `ushort[]` or an `int[]`; its normals and UVs are
      kept only when they have their own array type, and the engine
      recomputes the normals exactly when there is no normals buffer. */
  lemma SubmeshFromSpec(cache: Cache, parse: AccessorParser, glb: seq<byte>, dataStart: int, views: seq<Option<BufferViewInfo>>,
                        positions: int, normals: int, uvs: int, indices: int)
    requires SubmeshFrom(cache, parse, glb, dataStart, views, positions, normals, uvs, indices).Ok?
    ensures var sub := SubmeshFrom(cache, parse, glb, dataStart, views, positions, normals, uvs, indices).value.submesh;
      var lp := CacheLookup(cache, positions, parse, glb, dataStart, views, PositionOptions);
      var li := CacheLookup(lp.cache, indices, parse, glb, dataStart, views, IndexOptions);
      var ln := CacheLookup(li.cache, normals, parse, glb, dataStart, views, NormalOptions);
      && (sub.indices.Some? <==>
           lp.buffer.value.Some? && lp.buffer.value.value.Vector3Array? &&
           li.buffer.value.Some? && IsIndexBuffer(li.buffer.value.value))
      && (sub.indices.None? ==> sub == EmptySubmesh)
      && (sub.indices.Some? ==>
           && sub.vertices == lp.buffer.value.value.vec3s
           && sub.indices.value == IndexBufferOf(li.buffer.value.value)
           && (sub.normals.Some? ==> ln.buffer.value == Some(Accessors.Vector3Array(sub.normals.value)))
           && (sub.recalculatedNormals <==> ln.buffer.value.None?))
  {
  }

  /** The first k submeshes of a mesh, loaded in order, each on the cache
      the previous ones left. */
  function LoadSubmeshes(cache: Cache, parse: AccessorParser, glb: seq<byte>, dataStart: int, views: seq<Option<BufferViewInfo>>,
                         meshViews: seq<int>, k: nat): (r: Run<(seq<SubmeshData>, Cache)>)
    requires 4 * k <= |meshViews|
    ensures r.Ok? ==> |r.value.0| == k && Extends(cache, r.value.1)
    decreases k
  {
    if k == 0 then Ok(([], cache))
    else
      match LoadSubmeshes(cache, parse, glb, dataStart, views, meshViews, k - 1)
      case Fault => Fault
      case Ok(done) =>
        var o := 4 * (k - 1);
        match SubmeshFrom(done.1, parse, glb, dataStart, views, meshViews[o], meshViews[o + 1], meshViews[o + 2], meshViews[o + 3])
        case Fault => Fault
        case Ok(l) =>
          ExtendsTransitive(cache, done.1, l.cache);
          Ok((done.0 + [l.submesh], l.cache))
  }

  /** Once a submesh has thrown, loading more of them still throws. */
  lemma {:induction false} SubmeshesFaultPersists(cache: Cache, parse: AccessorParser, glb: seq<byte>, dataStart: int, views: seq<Option<BufferViewInfo>>,
                                                  meshViews: seq<int>, k: nat, m: nat)
    requires k <= m && 4 * m <= |meshViews|
    requires LoadSubmeshes(cache, parse, glb, dataStart, views, meshViews, k).Fault?
    ensures LoadSubmeshes(cache, parse, glb, dataStart, views, meshViews, m).Fault?
    decreases m - k
  {
    if k < m {
      SubmeshesFaultPersists(cache, parse, glb, dataStart, views, meshViews, k, m - 1);
    }
  }

  /** One more submesh: the (s+1)-th is loaded on the cache the first s
      left, and a throw there is a throw of the whole prefix. */
  lemma SubmeshesStep(cache: Cache, parse: AccessorParser, glb: seq<byte>, dataStart: int, views: seq<Option<BufferViewInfo>>,
                      meshViews: seq<int>, s: nat, done: (seq<SubmeshData>, Cache))
    requires 4 * (s + 1) <= |meshViews|
    requires LoadSubmeshes(cache, parse, glb, dataStart, views, meshViews, s) == Ok(done)
    ensures var r := SubmeshFrom(done.1, parse, glb, dataStart, views, meshViews[4 * s], meshViews[4 * s + 1],
                                 meshViews[4 * s + 2], meshViews[4 * s + 3]);
      && (r.Fault? ==> LoadSubmeshes(cache, parse, glb, dataStart, views, meshViews, s + 1).Fault?)
      && (r.Ok? ==> LoadSubmeshes(cache, parse, glb, dataStart, views, meshViews, s + 1) == Ok((done.0 + [r.value.submesh], r.value.cache)))
  {
  }

  datatype IndexFormat = UInt16 | UInt32

  /** The running `int` total of vertex counts, with 32-bit wrap-around. */
  function VertexSum(subs: seq<SubmeshData>): (sum: int)
    ensures Int32.InRange(sum)
  {
    if |subs| == 0 then 0 else Int32.Wrap(VertexSum(subs[..|subs| - 1]) + |subs[|subs| - 1].vertices|)
  }

  /** The running total after one more submesh. */
  lemma VertexSumAppend(subs: seq<SubmeshData>, x: SubmeshData)
    ensures VertexSum(subs + [x]) == Int32.Wrap(VertexSum(subs) + |x.vertices|)
  {
    assert (subs + [x])[..|subs|] == subs;
  }

  /** 16-bit indices below 65535 vertices in total, 32-bit otherwise. */
  function IndexFormatFor(sum: int): IndexFormat
  {
    if sum < 65535 then UInt16 else UInt32
  }

  /** A combined mesh: one submesh per loaded part. */
  datatype MeshData = MeshData(submeshes: seq<SubmeshData>, indexFormat: IndexFormat)

  /** A `m_meshesInfo` entry: the mesh and the material index of every
      primitive. */
  datatype MeshSlot = MeshSlot(mesh: MeshData, materials: seq<int>)

  /** The specification of `LoadMesh`: nothing when `GetMeshInfo` fails;
      otherwise every usable primitive loaded as a submesh, the index
      format chosen from the vertex total, and the material slots. */
  function MeshFrom(cache: Cache, parse: AccessorParser, glb: seq<byte>, dataStart: int, views: seq<Option<BufferViewInfo>>,
                    mesh: Dictionary): (r: Run<(Option<MeshSlot>, Cache)>)
    ensures r.Ok? ==> Extends(cache, r.value.1)
    ensures MeshInfoOf(mesh).None? ==> r == Ok((None, cache))
    ensures r.Ok? ==> (r.value.0.Some? <==> MeshInfoOf(mesh).Some?)
    ensures r.Ok? && r.value.0.Some? ==>
      && MeshInfoOf(mesh).Some?
      && |r.value.0.value.mesh.submeshes| == MeshInfoOf(mesh).value.nSubmeshes
      && r.value.0.value.materials == MeshInfoOf(mesh).value.materials
  {
    match MeshInfoOf(mesh)
    case None => Ok((None, cache))
    case Some(info) =>
      match LoadSubmeshes(cache, parse, glb, dataStart, views, info.views, info.nSubmeshes)
      case Fault => Fault
      case Ok(done) =>
        var subs := done.0;
        Ok((Some(MeshSlot(MeshData(subs, IndexFormatFor(VertexSum(subs))), info.materials)), done.1))
  }

  /** The exact total, without wrap-around. */
  function SumOfCounts(subs: seq<SubmeshData>): nat
  {
    if subs == [] then 0 else SumOfCounts(subs[..|subs| - 1]) + |subs[|subs| - 1].vertices|
  }

  /** Without overflow the running total is the real total, so a mesh
      gets 16-bit indices exactly when it has fewer than 65535 vertices
      in all. */
  lemma {:induction false} VertexSumExact(subs: seq<SubmeshData>)
    requires SumOfCounts(subs) <= Int32.MAX
    ensures VertexSum(subs) == SumOfCounts(subs)
    ensures IndexFormatFor(VertexSum(subs)) == UInt16 <==> SumOfCounts(subs) < 65535
    decreases |subs|
  {
    if subs != [] {
      VertexSumExact(subs[..|subs| - 1]);
    }
  }

  // ---------------------------------------------------------------------
  // Images.

  /** The texture formats `ParseImage` accepts. */
  function FormatOf(format: string): (f: Option<Materials.TextureFormat>)
    ensures f.Some? <==> format in {"BGRA32", "DXT5", "BC7"}
  {
    if format == "BGRA32" then Some(Materials.BGRA32)
    else if format == "DXT5" then Some(Materials.DXT5)
    else if format == "BC7" then Some(Materials.BC7)
    else None
  }

  const VoyageExtension: string := "EXT_voyage_exporter"

  /** The fields `ParseImage` checks before anything else: a numeric
      "bufferView" and an "extensions" dictionary. */
  predicate ImageFieldsOk(image: Dictionary)
  {
    FieldOk(image, Field("bufferView", TDouble)) && FieldOk(image, Field("extensions", TDataDictionary))
  }

  /** The exporter's description of an image: width, height (both
      defaulting to -1) and format (defaulting to ""). */
  datatype ImageHeader = ImageHeader(width: int, height: int, format: string)

  function VoyageHeader(image: Dictionary): Option<ImageHeader>
    requires ImageFieldsOk(image)
  {
    match TryGetValue(image["extensions"].fields, VoyageExtension, TDataDictionary)
    case None => None
    case Some(v) =>
      Some(ImageHeader(DictOptInt(v.fields, "width", -1), DictOptInt(v.fields, "height", -1),
                       DictOptString(v.fields, "format", "")))
  }

  /** The header test as written: it rejects a missing width, a height of
      exactly 1 and a missing format. */
  predicate HeaderRejected(h: ImageHeader)
  {
    h.width == -1 || h.height == 1 || h.format == ""
  }

  /** The specification of `ParseImage`: a texture read from the bytes of
      its buffer view, with the exporter's width, height and format, or
      null when a field, the extension, a header value, the format or the
      view index is unusable; copying out of range or through a missing
      view throws, and so does creating the texture when Unity refuses
      its size or the bytes are too few for it. */
  function ImageOf(image: Dictionary, glb: seq<byte>, dataStart: int, views: seq<Option<BufferViewInfo>>): (r: Run<Option<Materials.Texture>>)
    ensures !ImageFieldsOk(image) ==> r == Ok(None)
    ensures r.Ok? && r.value.Some? ==>
      && ImageFieldsOk(image)
      && VoyageHeader(image).Some?
      && !HeaderRejected(VoyageHeader(image).value)
      && FormatOf(VoyageHeader(image).value.format) == Some(r.value.value.format)
      && r.value.value.width == VoyageHeader(image).value.width
      && r.value.value.height == VoyageHeader(image).value.height
      && !r.value.value.mipmaps
      && Textures.Loads(Materials.LayoutOf(r.value.value.format), r.value.value.width, r.value.value.height, false, |r.value.value.data|)
      && var index := Int32.DoubleToInt(image["bufferView"].n);
         && 0 <= index < |views| && views[index].Some?
         && var offset := Int32.Wrap(dataStart + views[index].value.byteOffset);
            && 0 <= offset <= offset + views[index].value.byteLength <= |glb|
            && r.value.value.data == glb[offset..offset + views[index].value.byteLength]
    ensures (&& ImageFieldsOk(image) && VoyageHeader(image).Some? && !HeaderRejected(VoyageHeader(image).value)
             && FormatOf(VoyageHeader(image).value.format).Some?
             && var index := Int32.DoubleToInt(image["bufferView"].n);
                && 0 <= index < |views| && views[index].Some?
                && BlockCopyOk(glb, Int32.Wrap(dataStart + views[index].value.byteOffset),
                               views[index].value.byteLength, views[index].value.byteLength))
            ==> (r.Ok? <==> Textures.Loads(Materials.LayoutOf(FormatOf(VoyageHeader(image).value.format).value),
                                           VoyageHeader(image).value.width, VoyageHeader(image).value.height, false,
                                           views[Int32.DoubleToInt(image["bufferView"].n)].value.byteLength))
  {
    if !ImageFieldsOk(image) then Ok(None)
    else
      match VoyageHeader(image)
      case None => Ok(None)
      case Some(h) =>
        if HeaderRejected(h) then Ok(None)
        else
          match FormatOf(h.format)
          case None => Ok(None)
          case Some(format) =>
            var index := Int32.DoubleToInt(image["bufferView"].n);
            if index < 0 || index >= |views| then Ok(None)
            else if views[index].None? then Fault
            else
              var offset := Int32.Wrap(dataStart + views[index].value.byteOffset);
              var size := views[index].value.byteLength;
              if !BlockCopyOk(glb, offset, size, size) then Fault
              else if !Textures.Loads(Materials.LayoutOf(format), h.width, h.height, false, size) then Fault
              else
                Ok(Some(Materials.Texture(DictOptString(image, "name", "Anonymous"), h.width, h.height,
                                          format, false, glb[offset..offset + size])))
  }

  /** The height test compares with 1 rather than with the -1 default:
      a header with height 1 is refused (null), while a header that omits
      the height passes the test and makes Unity throw once the format
      and the view index are usable, as no texture of height -1 exists. */
  lemma ImageHeightTest(image: Dictionary, glb: seq<byte>, dataStart: int, views: seq<Option<BufferViewInfo>>)
    requires ImageFieldsOk(image) && VoyageHeader(image).Some?
    ensures VoyageHeader(image).value.height == 1 ==> ImageOf(image, glb, dataStart, views) == Ok(None)
    ensures var h := VoyageHeader(image).value;
      var index := Int32.DoubleToInt(image["bufferView"].n);
      (h.height == -1 && h.width != -1 && FormatOf(h.format).Some? && 0 <= index < |views|) ==>
        ImageOf(image, glb, dataStart, views).Fault?
  {
  }

  // ---------------------------------------------------------------------
  // Nodes.

  /** A renderer's material entry: the loader's material at that index, or
      a fresh copy of the base material. */
  datatype SharedMaterial = Known(index: nat) | NewMaterial

  /** A spawned node: name, local transform, the index of the node it is
      parented to (none: the scene root it was spawned under), and the
      mesh and materials its filter and renderer were given. */
  datatype NodeState = NodeState(
    name: string,
    position: Vector3,
    rotation: Rotation,
    scale: Document.Scale,
    parent: Option<nat>,
    mesh: Option<MeshData>,
    materials: Option<seq<SharedMaterial>>)

  /** glTF is right-handed and Unity left-handed: the translation's x is
      negated. */
  function FlipPosition(p: Vector3): (r: Vector3)
    ensures r.x == -p.x && r.y == p.y && r.z == p.z
  {
    Vector3(-p.x, p.y, p.z)
  }

  /** ... and the rotation (x, y, z, w) becomes (-x, y, z, -w); a rotation
      taken from a matrix is marked as flipped. */
  function FlipRotation(r: Rotation): (f: Rotation)
    ensures r.Quat? ==> f == Quat(Quaternion(-r.q.x, r.q.y, r.q.z, -r.q.w))
    ensures r.RotationOf? ==> f == RotationOf(r.m, !r.mirrored)
  {
    match r
    case Quat(q) => Quat(Quaternion(-q.x, q.y, q.z, -q.w))
    case RotationOf(m, mirrored) => RotationOf(m, !mirrored)
  }

  /** Both flips are involutions: converting twice gives back the
      document's transform. */
  lemma FlipsInvolutive(p: Vector3, r: Rotation)
    ensures FlipPosition(FlipPosition(p)) == p
    ensures FlipRotation(FlipRotation(r)) == r
  {
  }

  /** The renderer's material array: one entry per material index, the
      loader's material when the index is one of its materials, a fresh
      default material otherwise. */
  function MaterialsFor(indices: seq<int>, nKnown: int): (r: seq<SharedMaterial>)
    ensures |r| == |indices|
    ensures forall k :: 0 <= k < |indices| ==>
      r[k] == (if 0 <= indices[k] < nKnown then Known(indices[k]) else NewMaterial)
  {
    seq(|indices|, k requires 0 <= k < |indices| =>
      if 0 <= indices[k] < nKnown then Known(indices[k]) else NewMaterial)
  }

  /** Every known entry names one of the loader's materials. */
  lemma MaterialsForInRange(indices: seq<int>, nKnown: int)
    ensures forall k :: 0 <= k < |indices| && MaterialsFor(indices, nKnown)[k].Known? ==>
      MaterialsFor(indices, nKnown)[k].index < nKnown
  {
  }

  /** The specification of `SetupMesh`: nothing happens for a mesh index
      outside [0, maxMeshIndex] or a missing mesh record; otherwise the
      node shows the mesh with one material per material index. */
  function WithMesh(node: NodeState, meshes: seq<Option<MeshSlot>>, meshIndex: int, maxMeshIndex: int, nKnown: int): Run<NodeState>
  {
    if meshIndex < 0 || meshIndex > maxMeshIndex then Ok(node)
    else if meshIndex >= |meshes| then Fault
    else if meshes[meshIndex].None? then Ok(node)
    else
      var slot := meshes[meshIndex].value;
      Ok(node.(mesh := Some(slot.mesh), materials := Some(MaterialsFor(slot.materials, nKnown))))
  }

  /** The listed children that are reparented: those in [0, nNodes). */
  predicate Reparented(children: seq<int>, nNodes: int, j: int)
  {
    j in children && 0 <= j < nNodes
  }

  /** The parent links of the spawned nodes; a missing node has none. */
  function Links(objs: seq<Option<NodeState>>): Parents.Table
  {
    seq(|objs|, j requires 0 <= j < |objs| => if objs[j].Some? then objs[j].value.parent else None)
  }

  /** A fresh instance of the node prefab sits directly under the
      loader's root. */
  function Instance(prefab: NodeState): NodeState
  {
    prefab.(parent := None)
  }

  /** The children loop of `SetupNodes` over a prefix of the child list:
      every child index in [0, nNodes) is parented to node n, unless
      Unity refuses because the child is n or one of its ancestors; the
      other indices are skipped; a child index that names no spawned node
      throws. */
  function Reparent(objs: seq<Option<NodeState>>, children: seq<int>, n: nat, nNodes: int): (r: Run<seq<Option<NodeState>>>)
    decreases |children|
  {
    if children == [] then Ok(objs)
    else
      match Reparent(objs, children[..|children| - 1], n, nNodes)
      case Fault => Fault
      case Ok(o) =>
        var c := children[|children| - 1];
        if c < 0 || c >= nNodes then Ok(o)
        else if c >= |o| || o[c].None? then Fault
        else if Parents.Refused(Links(o), c, n) then Ok(o)
        else Ok(o[c := Some(o[c].value.(parent := Some(n)))])
  }

  /** Reparenting changes exactly the parent of the listed children in
      range that are neither n nor one of n's ancestors before the loop,
      and nothing else, and throws exactly when one of the listed children
      in range names no spawned node. */
  lemma {:induction false} ReparentSpec(objs: seq<Option<NodeState>>, children: seq<int>, n: nat, nNodes: int)
    ensures Reparent(objs, children, n, nNodes).Fault? <==>
      exists c :: c in children && 0 <= c < nNodes && (c >= |objs| || objs[c].None?)
    ensures Reparent(objs, children, n, nNodes).Ok? ==>
      var r := Reparent(objs, children, n, nNodes).value;
      && |r| == |objs|
      && forall j :: 0 <= j < |objs| ==>
           r[j] == if Reparented(children, nNodes, j) && objs[j].Some? && !Parents.Refused(Links(objs), j, n)
                   then Some(objs[j].value.(parent := Some(n))) else objs[j]
    decreases |children|
  {
    if children != [] {
      var init := children[..|children| - 1];
      var c := children[|children| - 1];
      assert children == init + [c];
      ReparentSpec(objs, init, n, nNodes);
      forall j
        ensures Reparented(children, nNodes, j) <==> Reparented(init, nNodes, j) || (j == c && 0 <= c < nNodes)
      {
      }
      if Reparent(objs, init, n, nNodes).Fault? {
        var w :| w in init && 0 <= w < nNodes && (w >= |objs| || objs[w].None?);
        assert w in children;
      } else {
        var o := Reparent(objs, init, n, nNodes).value;
        if 0 <= c < nNodes && (c >= |o| || o[c].None?) {
          assert c >= |objs| || objs[c].None?;
          assert c in children;
        } else {
          forall w | w in children && 0 <= w < nNodes
            ensures w < |objs| && objs[w].Some?
          {
            if w != c {
              assert w in init;
            } else {
              assert o[c].Some?;
            }
          }
          if 0 <= c < nNodes {
            // the links changed so far are off n's chain, so the refusal
            // reads the same on the starting links
            var t, a := Links(objs), Links(o);
            forall j | 0 <= j < |t| && a[j] != t[j]
              ensures !Parents.Reaches(t, n, j, |t|)
            {
            }
            Parents.ReachesAgree(t, a, n, c, |t|);
          }
        }
      }
    }
  }

  /** Seen as a parent table, reparenting is the children loop of the
      parent links: it keeps the nodes a forest. */
  lemma ReparentLinks(objs: seq<Option<NodeState>>, children: seq<int>, n: nat, nNodes: int)
    requires Reparent(objs, children, n, nNodes).Ok?
    ensures Links(Reparent(objs, children, n, nNodes).value) == Parents.AdoptAll(Links(objs), children, n, nNodes)
    ensures Parents.Forest(Links(objs)) && n < |objs| ==> Parents.Forest(Links(Reparent(objs, children, n, nNodes).value))
  {
    ReparentSpec(objs, children, n, nNodes);
    Parents.AdoptAllSpec(Links(objs), children, n, nNodes);
    var r := Reparent(objs, children, n, nNodes).value;
    forall j | 0 <= j < |objs| && j in children && j < nNodes
      ensures objs[j].Some?
    {
    }
    assert Links(r) == Parents.AdoptAll(Links(objs), children, n, nNodes);
    if Parents.Forest(Links(objs)) && n < |objs| {
      Parents.AdoptAllForest(Links(objs), children, n, nNodes);
    }
  }

  /** A child list whose prefix already throws throws as a whole. */
  lemma FaultReparentPersists(objs: seq<Option<NodeState>>, children: seq<int>, k: nat, n: nat, nNodes: int)
    requires k <= |children|
    requires Reparent(objs, children[..k], n, nNodes).Fault?
    ensures Reparent(objs, children, n, nNodes).Fault?
  {
    ReparentSpec(objs, children[..k], n, nNodes);
    ReparentSpec(objs, children, n, nNodes);
    var w :| w in children[..k] && 0 <= w < nNodes && (w >= |objs| || objs[w].None?);
    assert w in children;
  }

  /** One node of `SetupNodes`: its mesh and materials, its name, its
      flipped local transform, then its children. */
  function SetupNode(objs: seq<Option<NodeState>>, n: nat, info: NodeInfo, meshes: seq<Option<MeshSlot>>,
                     maxMeshIndex: int, nKnown: int, nNodes: int): (r: Run<seq<Option<NodeState>>>)
  {
    if n >= |objs| || objs[n].None? then Fault
    else
      match WithMesh(objs[n].value, meshes, info.mesh, maxMeshIndex, nKnown)
      case Fault => Fault
      case Ok(meshed) =>
        var node := meshed.(name := info.name, position := FlipPosition(info.position),
                          rotation := FlipRotation(info.rotation), scale := info.scale);
        Reparent(objs[n := Some(node)], info.children, n, nNodes)
  }

  /** What one node's setup leaves: the node carries the document's name
      and scale and the flipped translation and rotation, every other
      node only changes its parent, to n, when it is a listed child in
      range that Unity does not refuse, and the nodes stay a forest. */
  lemma SetupNodeSpec(objs: seq<Option<NodeState>>, n: nat, info: NodeInfo, meshes: seq<Option<MeshSlot>>,
                      maxMeshIndex: int, nKnown: int, nNodes: int)
    requires SetupNode(objs, n, info, meshes, maxMeshIndex, nKnown, nNodes).Ok?
    ensures var r := SetupNode(objs, n, info, meshes, maxMeshIndex, nKnown, nNodes).value;
      && |r| == |objs| && n < |r| && r[n].Some?
      && r[n].value.name == info.name
      && r[n].value.position == FlipPosition(info.position)
      && r[n].value.rotation == FlipRotation(info.rotation)
      && r[n].value.scale == info.scale
      && (Parents.Forest(Links(objs)) ==> Parents.Forest(Links(r)))
      && forall j :: 0 <= j < |objs| && j != n ==>
           r[j] == if Reparented(info.children, nNodes, j) && objs[j].Some? && !Parents.Refused(Links(objs), j, n)
                   then Some(objs[j].value.(parent := Some(n))) else objs[j]
  {
    var meshed := WithMesh(objs[n].value, meshes, info.mesh, maxMeshIndex, nKnown).value;
    var node := meshed.(name := info.name, position := FlipPosition(info.position),
                      rotation := FlipRotation(info.rotation), scale := info.scale);
    assert Links(objs[n := Some(node)]) == Links(objs);
    ReparentSpec(objs[n := Some(node)], info.children, n, nNodes);
    ReparentLinks(objs[n := Some(node)], info.children, n, nNodes);
  }

  /** The nodes `SetupNodes` has set up after processing [lo, hi). */
  function SetupRange(objs: seq<Option<NodeState>>, list: seq<Token>, lo: nat, hi: nat, meshes: seq<Option<MeshSlot>>,
                      maxMeshIndex: int, nKnown: int): (r: Run<seq<Option<NodeState>>>)
    requires hi <= |list|
    decreases hi
  {
    if hi <= lo then Ok(objs)
    else
      match SetupRange(objs, list, lo, hi - 1, meshes, maxMeshIndex, nKnown)
      case Fault => Fault
      case Ok(o) => SetupToken(o, list[hi - 1], hi - 1, meshes, maxMeshIndex, nKnown, |list|)
  }

  /** The visit of token n: anything but a dictionary is skipped. */
  function SetupToken(objs: seq<Option<NodeState>>, t: Token, n: nat, meshes: seq<Option<MeshSlot>>,
                      maxMeshIndex: int, nKnown: int, nNodes: int): Run<seq<Option<NodeState>>>
  {
    if !t.Dict? then Ok(objs)
    else
      match NodeOf(t.fields)
      case Fault => Fault
      case Ok(info) => SetupNode(objs, n, info, meshes, maxMeshIndex, nKnown, nNodes)
  }

  /** A visit of the node loop to a node dictionary that parses and
      whose mesh is set up is its children loop on the nodes with node i
      set up. */
  lemma SetupRangeReparents(objs: seq<Option<NodeState>>, list: seq<Token>, lo: nat, i: nat, meshes: seq<Option<MeshSlot>>,
                            maxMeshIndex: int, nKnown: int, o: seq<Option<NodeState>>, info: NodeInfo, node: NodeState)
    requires lo <= i < |list| && SetupRange(objs, list, lo, i, meshes, maxMeshIndex, nKnown) == Ok(o)
    requires list[i].Dict? && NodeOf(list[i].fields) == Ok(info) && i < |o| && o[i].Some?
    requires WithMesh(o[i].value, meshes, info.mesh, maxMeshIndex, nKnown).Ok?
    requires node == WithMesh(o[i].value, meshes, info.mesh, maxMeshIndex, nKnown).value.(
      name := info.name, position := FlipPosition(info.position), rotation := FlipRotation(info.rotation), scale := info.scale)
    ensures SetupRange(objs, list, lo, i + 1, meshes, maxMeshIndex, nKnown) == Reparent(o[i := Some(node)], info.children, i, |list|)
  {
  }

  /** One more visit of the node loop. */
  lemma SetupRangeStep(objs: seq<Option<NodeState>>, list: seq<Token>, lo: nat, i: nat, meshes: seq<Option<MeshSlot>>,
                       maxMeshIndex: int, nKnown: int, o: seq<Option<NodeState>>)
    requires lo <= i < |list| && SetupRange(objs, list, lo, i, meshes, maxMeshIndex, nKnown) == Ok(o)
    ensures SetupRange(objs, list, lo, i + 1, meshes, maxMeshIndex, nKnown) == SetupToken(o, list[i], i, meshes, maxMeshIndex, nKnown, |list|)
  {
  }

  /** Setting nodes up never adds or removes one. */
  lemma {:induction false} SetupRangeKeepsLength(objs: seq<Option<NodeState>>, list: seq<Token>, lo: nat, hi: nat,
                                                 meshes: seq<Option<MeshSlot>>, maxMeshIndex: int, nKnown: int)
    requires hi <= |list|
    requires SetupRange(objs, list, lo, hi, meshes, maxMeshIndex, nKnown).Ok?
    ensures |SetupRange(objs, list, lo, hi, meshes, maxMeshIndex, nKnown).value| == |objs|
    decreases hi
  {
    if hi > lo {
      SetupRangeKeepsLength(objs, list, lo, hi - 1, meshes, maxMeshIndex, nKnown);
      var o := SetupRange(objs, list, lo, hi - 1, meshes, maxMeshIndex, nKnown).value;
      var t := list[hi - 1];
      if t.Dict? {
        SetupNodeSpec(o, hi - 1, NodeOf(t.fields).value, meshes, maxMeshIndex, nKnown, |list|);
      }
    }
  }

  /** Nodes fresh from the prefab, all directly under the loader's root,
      form a forest. */
  lemma InstancesForest(objs: seq<Option<NodeState>>)
    requires forall j :: 0 <= j < |objs| && objs[j].Some? ==> objs[j].value.parent.None?
    ensures Parents.Forest(Links(objs))
  {
    Parents.NoLinksForest(Links(objs));
  }

  /** Setting nodes up keeps them a forest under the loader's root. */
  lemma {:induction false} SetupRangeForest(objs: seq<Option<NodeState>>, list: seq<Token>, lo: nat, hi: nat,
                                            meshes: seq<Option<MeshSlot>>, maxMeshIndex: int, nKnown: int)
    requires hi <= |list| && Parents.Forest(Links(objs))
    requires SetupRange(objs, list, lo, hi, meshes, maxMeshIndex, nKnown).Ok?
    ensures Parents.Forest(Links(SetupRange(objs, list, lo, hi, meshes, maxMeshIndex, nKnown).value))
    decreases hi
  {
    if hi > lo {
      SetupRangeForest(objs, list, lo, hi - 1, meshes, maxMeshIndex, nKnown);
      var o := SetupRange(objs, list, lo, hi - 1, meshes, maxMeshIndex, nKnown).value;
      var t := list[hi - 1];
      if t.Dict? {
        SetupNodeSpec(o, hi - 1, NodeOf(t.fields).value, meshes, maxMeshIndex, nKnown, |list|);
      }
    }
  }
}
