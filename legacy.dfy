/** The older, one-shot loader (`GLBLoader.cs` at the repository root):
    it walks the container header, checks the document's top-level
    lists, fills its buffer-view, accessor, material and mesh arrays and
    spawns and parents the nodes, all in one call. */
module LegacyLoader {
  import opened Wrappers
  import opened Json
  import opened Bytes
  import Int32
  import Container
  import Document
  import Reshape
  import Scene
  import Parents
  import Textures

  // ---------------------------------------------------------------------
  // The container header.

  /** The header walk of `ParseGLB`, one field at a time behind a cursor.
      It takes the same decisions as the newer loader's `ParseMainData`:
      the same rejections, the same throws, the same JSON slice and the
      same start of the binary payload. */
  method WalkHeader(glb: seq<byte>) returns (r: Run<Container.Layout>)
    ensures r == Container.ParseMainData(glb)
  {
    if |glb| < 32 {
      return Ok(Container.Rejected);
    }
    var cursor := 0;
    var magic := U32At(glb, cursor);
    cursor := cursor + 4;
    if magic != Container.MAGIC {
      return Ok(Container.Rejected);
    }
    cursor := cursor + 4;  // the version is only logged
    var size := U32At(glb, cursor);
    cursor := cursor + 4;
    if |glb| < size {
      return Ok(Container.Rejected);
    }
    var chunkLength := I32At(glb, cursor);
    cursor := cursor + 4;
    var chunkType := U32At(glb, cursor);
    cursor := cursor + 4;
    if chunkLength < 0 || chunkType != Container.CHUNK_JSON {
      return Ok(Container.Rejected);
    }
    if cursor + chunkLength > |glb| {
      return Fault;  // the UTF-8 decoding of the JSON chunk runs past the data
    }
    var jsonData := glb[cursor..cursor + chunkLength];
    cursor := cursor + chunkLength;
    var binLength := ReadI32(glb, cursor);
    if binLength.Fault? {
      return Fault;
    }
    cursor := cursor + 4;
    var binType := ReadU32(glb, cursor);
    if binType.Fault? {
      return Fault;
    }
    cursor := cursor + 4;
    if binType.value != Container.CHUNK_BIN {
      return Ok(Container.Rejected);
    }
    return Ok(Container.Accepted(jsonData, cursor));
  }

  // ---------------------------------------------------------------------
  // Field checks.

  predicate Even(j: int)
  {
    j % 2 == 0
  }

  /** The pairs this `CheckFields` really looks at: the first, the third,
      the fifth, and so on. */
  predicate CheckedFieldsOk(dict: Dictionary, fields: seq<Document.Field>)
  {
    forall j :: 0 <= j < |fields| && Even(j) ==> Document.FieldOk(dict, fields[j])
  }

  /** `CheckFields` over the flattened (name, type) arguments.  The loop
      header advances the argument index by 2 and so does the body, so
      every other pair is skipped. */
  method CheckFields(dict: Dictionary, fields: seq<Document.Field>) returns (everythingIsOk: bool)
    ensures everythingIsOk <==> CheckedFieldsOk(dict, fields)
  {
    everythingIsOk := true;
    var nObjects := 2 * |fields|;
    var i := 0;
    ghost var k := 0;
    while i < nObjects
      invariant i == 4 * k && 0 <= k && 2 * k <= |fields| + 1
      invariant everythingIsOk <==>
        forall j :: 0 <= j < |fields| && j < 2 * k && Even(j) ==> Document.FieldOk(dict, fields[j])
    {
      assert i / 2 == 2 * k;
      var field := fields[i / 2];
      i := i + 2;
      everythingIsOk := everythingIsOk && field.name in dict;
      everythingIsOk := everythingIsOk && TypeOf(Get(dict, field.name)) == field.ty;
      i := i + 2;
      k := k + 1;
    }
  }

  /** The newer loader's complete check implies this one, and the two
      agree on a single pair. */
  lemma CheckedFieldsWeaker(dict: Dictionary, fields: seq<Document.Field>)
    ensures Document.FieldsOk(dict, fields) ==> CheckedFieldsOk(dict, fields)
    ensures |fields| <= 1 ==> (CheckedFieldsOk(dict, fields) <==> Document.FieldsOk(dict, fields))
  {
    if |fields| == 1 {
      assert Even(0);
    }
  }

  /** The five lists `ParseGLB` asks for. */
  const ROOT_FIELDS: seq<Document.Field> := [
    Document.Field("meshes", TDataList),
    Document.Field("materials", TDataList),
    Document.Field("bufferViews", TDataList),
    Document.Field("accessors", TDataList),
    Document.Field("nodes", TDataList)]

  predicate IsList(dict: Dictionary, key: string)
  {
    Document.FieldOk(dict, Document.Field(key, TDataList))
  }

  /** The root check of `ParseGLB` passes exactly when "meshes",
      "bufferViews" and "nodes" are lists: "materials" and "accessors"
      are never looked at. */
  lemma RootCheckSpec(root: Dictionary)
    ensures CheckedFieldsOk(root, ROOT_FIELDS) <==>
      IsList(root, "meshes") && IsList(root, "bufferViews") && IsList(root, "nodes")
  {
    assert Even(0) && Even(2) && Even(4);
    if IsList(root, "meshes") && IsList(root, "bufferViews") && IsList(root, "nodes") {
      forall j | 0 <= j < |ROOT_FIELDS| && Even(j)
        ensures Document.FieldOk(root, ROOT_FIELDS[j])
      {
        assert j == 0 || j == 2 || j == 4;
      }
    }
  }

  /** A document without "materials" and "accessors" passes the root
      check, and the cast of its accessor list then throws. */
  lemma RootCheckMissesAccessors()
    ensures var root := map["meshes" := List([]), "bufferViews" := List([]), "nodes" := List([])];
      CheckedFieldsOk(root, ROOT_FIELDS) && AsList(Get(root, "accessors")).Fault?
  {
    var root := map["meshes" := List([]), "bufferViews" := List([]), "nodes" := List([])];
    RootCheckSpec(root);
  }

  /** `HasKeys`: `&=`s together whether each key is present. */
  method HasKeys(dict: Dictionary, keys: seq<string>) returns (hasAllKeys: bool)
    ensures hasAllKeys <==> forall k :: 0 <= k < |keys| ==> keys[k] in dict
  {
    var nKeys := |keys|;
    hasAllKeys := true;
    var k := 0;
    while k < nKeys
      invariant 0 <= k <= nKeys
      invariant hasAllKeys <==> forall j :: 0 <= j < k ==> keys[j] in dict
    {
      hasAllKeys := hasAllKeys && keys[k] in dict;
      k := k + 1;
    }
  }

  // ---------------------------------------------------------------------
  // Buffer views.

  const ARRAY_BUFFER: int := 34962
  const ELEMENT_ARRAY_BUFFER: int := 34963

  /** What a slot of the buffer-view array holds: the `int[]` pair
      (absolute offset, length) for a view without target, the floats of
      a vertex-data view, the 16-bit values of an index-data view, or
      null. */
  datatype View =
    | Span(offset: int, nBytes: int)
    | Floats(floats: seq<F32>)
    | Ushorts(ushorts: seq<nat>)
    | NoView

  /** The absolute offset of a view: the payload start plus "byteOffset",
      as an unchecked `int` addition. */
  function ViewOffset(view: Dictionary, dataOffset: int): int
  {
    Int32.Wrap(dataOffset + Document.DictOptInt(view, "byteOffset", 0))
  }

  /** One buffer view, dispatched on "target" ("byteOffset", "byteLength"
      and "target" default to 0).  A token that is not a dictionary is
      still cast to one, which throws; so does a copy that does not fit. */
  function ViewOf(t: Token, glb: seq<byte>, dataOffset: int): (r: Run<View>)
    ensures !t.Dict? ==> r.Fault?
    ensures t.Dict? ==>
      var offset := ViewOffset(t.fields, dataOffset);
      var nBytes := Document.DictOptInt(t.fields, "byteLength", 0);
      var target := Document.DictOptInt(t.fields, "target", 0);
      && (target == 0 ==> r == Ok(Span(offset, nBytes)))
      && (target == ARRAY_BUFFER ==>
            && (r.Ok? <==> 0 <= offset && 0 <= nBytes && nBytes % 4 == 0 && offset + nBytes <= |glb|)
            && (r.Ok? ==>
                  && r.value.Floats? && |r.value.floats| == nBytes / 4
                  && forall k :: 0 <= k < nBytes / 4 ==> r.value.floats[k] == F32At(glb, offset + 4 * k)))
      && (target == ELEMENT_ARRAY_BUFFER ==>
            && (r.Ok? <==> 0 <= offset && 0 <= nBytes && nBytes % 2 == 0 && offset + nBytes <= |glb|)
            && (r.Ok? ==>
                  && r.value.Ushorts? && |r.value.ushorts| == nBytes / 2
                  && forall k :: 0 <= k < nBytes / 2 ==> r.value.ushorts[k] == U16At(glb, offset + 2 * k)))
      && (target != 0 && target != ARRAY_BUFFER && target != ELEMENT_ARRAY_BUFFER ==> r == Ok(NoView))
  {
    if !t.Dict? then Fault
    else
      var offset := ViewOffset(t.fields, dataOffset);
      var nBytes := Document.DictOptInt(t.fields, "byteLength", 0);
      var target := Document.DictOptInt(t.fields, "target", 0);
      if target == 0 then Ok(Span(offset, nBytes))
      else if target == ARRAY_BUFFER then
        match GetFloats(glb, offset, nBytes)
        case Ok(fs) => Ok(Floats(fs))
        case Fault => Fault
      else if target == ELEMENT_ARRAY_BUFFER then
        match GetUshorts(glb, offset, nBytes)
        case Ok(us) => Ok(Ushorts(us))
        case Fault => Fault
      else Ok(NoView)
  }

  /** `ParseBufferViews`: one slot per listed view, in order; the first
      view that throws ends the load. */
  method ParseBufferViews(bufferViews: seq<Token>, glb: seq<byte>, dataOffset: int) returns (r: Run<seq<View>>)
    ensures r.Ok? <==> forall v :: 0 <= v < |bufferViews| ==> ViewOf(bufferViews[v], glb, dataOffset).Ok?
    ensures r.Ok? ==> |r.value| == |bufferViews|
    ensures r.Ok? ==>
      forall v :: 0 <= v < |bufferViews| ==> r.value[v] == ViewOf(bufferViews[v], glb, dataOffset).value
  {
    var nViews := |bufferViews|;
    var views := new View[nViews](_ => NoView);
    var v := 0;
    while v < nViews
      invariant 0 <= v <= nViews
      invariant forall j :: 0 <= j < v ==> ViewOf(bufferViews[j], glb, dataOffset).Ok?
      invariant forall j :: 0 <= j < v ==> views[j] == ViewOf(bufferViews[j], glb, dataOffset).value
    {
      var bufferViewToken := bufferViews[v];
      if !bufferViewToken.Dict? {
        views[v] := NoView;
      }
      var cast := AsDict(bufferViewToken);
      if cast.Fault? {
        return Fault;
      }
      var bufferView := cast.value;
      var nBytes := Document.DictOptInt(bufferView, "byteLength", 0);
      var localOffset := Document.DictOptInt(bufferView, "byteOffset", 0);
      var target := Document.DictOptInt(bufferView, "target", 0);
      var offset := Int32.Wrap(dataOffset + localOffset);
      if target == 0 {
        views[v] := Span(offset, nBytes);
      } else if target == ARRAY_BUFFER {
        var floats := GetFloats(glb, offset, nBytes);
        if floats.Fault? {
          return Fault;
        }
        views[v] := Floats(floats.value);
      } else if target == ELEMENT_ARRAY_BUFFER {
        var ushorts := GetUshorts(glb, offset, nBytes);
        if ushorts.Fault? {
          return Fault;
        }
        views[v] := Ushorts(ushorts.value);
      } else {
        views[v] := NoView;
      }
      v := v + 1;
    }
    return Ok(views[..]);
  }

  /** A listed view that is not a dictionary ends the load, although the
      loop writes a null slot for it first. */
  lemma NonDictionaryViewThrows(glb: seq<byte>, dataOffset: int)
    ensures ViewOf(Number(0.0), glb, dataOffset).Fault?
  {
  }

  // ---------------------------------------------------------------------
  // Accessors.

  /** A parsed accessor: `object[] { view, componentType, count, type }`. */
  datatype Accessor = Accessor(view: View, componentType: int, count: int, accessorType: string)

  const BUFFER_VIEW_FIELD: seq<Document.Field> := [Document.Field("bufferView", TDouble)]

  /** The view index an accessor names, once its "bufferView" is known to
      be a number. */
  function ViewIndex(info: Dictionary): int
    requires Document.FieldOk(info, Document.Field("bufferView", TDouble))
  {
    Int32.DoubleToInt(info["bufferView"].n)
  }

  /** The specification of `ParseAccessor`: null when "bufferView" is
      missing or not a number, or when it names a view at or past the end
      of the view array; a negative index throws on the array read;
      otherwise the view it names and the optional fields with their
      defaults (component type -1, count 0, type ""). */
  function AccessorOf(views: seq<View>, info: Dictionary): (r: Run<Option<Accessor>>)
    ensures !Document.FieldOk(info, Document.Field("bufferView", TDouble)) ==> r == Ok(None)
    ensures Document.FieldOk(info, Document.Field("bufferView", TDouble)) ==>
      var index := ViewIndex(info);
      && (index >= |views| ==> r == Ok(None))
      && (index < 0 ==> r.Fault?)
      && (0 <= index < |views| ==>
            && r.Ok? && r.value.Some?
            && r.value.value.view == views[index]
            && r.value.value.componentType == Document.DictOptInt(info, "componentType", -1)
            && r.value.value.count == Document.DictOptInt(info, "count", 0)
            && r.value.value.accessorType == Document.DictOptString(info, "type", ""))
  {
    if !Document.FieldOk(info, Document.Field("bufferView", TDouble)) then Ok(None)
    else
      var index := ViewIndex(info);
      if index >= |views| then Ok(None)
      else if index < 0 then Fault
      else
        Ok(Some(Accessor(
          views[index],
          Document.DictOptInt(info, "componentType", -1),
          Document.DictOptInt(info, "count", 0),
          Document.DictOptString(info, "type", ""))))
  }

  /** `ParseAccessor`: the field check, the bound check, then the record. */
  method ParseAccessor(views: seq<View>, accessorInfo: Dictionary) returns (r: Run<Option<Accessor>>)
    ensures r == AccessorOf(views, accessorInfo)
  {
    var check := CheckFields(accessorInfo, BUFFER_VIEW_FIELD);
    CheckedFieldsWeaker(accessorInfo, BUFFER_VIEW_FIELD);
    if !check {
      return Ok(None);
    }
    assert Document.FieldOk(accessorInfo, BUFFER_VIEW_FIELD[0]);
    var bufferViewIndex := Int32.DoubleToInt(accessorInfo["bufferView"].n);
    if bufferViewIndex >= |views| {
      return Ok(None);
    }
    if bufferViewIndex < 0 {
      return Fault;
    }
    return Ok(Some(Accessor(
      views[bufferViewIndex],
      Document.DictOptInt(accessorInfo, "componentType", -1),
      Document.DictOptInt(accessorInfo, "count", 0),
      Document.DictOptString(accessorInfo, "type", ""))));
  }

  /** The slot of one listed accessor: anything but a dictionary leaves
      it null. */
  function AccessorSlot(views: seq<View>, t: Token): Run<Option<Accessor>>
  {
    if t.Dict? then AccessorOf(views, t.fields) else Ok(None)
  }

  /** `ParseAccessors`: one slot per listed accessor, in order. */
  method ParseAccessors(views: seq<View>, accessorsInfo: seq<Token>) returns (r: Run<seq<Option<Accessor>>>)
    ensures r.Ok? <==> forall i :: 0 <= i < |accessorsInfo| ==> AccessorSlot(views, accessorsInfo[i]).Ok?
    ensures r.Ok? ==> |r.value| == |accessorsInfo|
    ensures r.Ok? ==>
      forall i :: 0 <= i < |accessorsInfo| ==> r.value[i] == AccessorSlot(views, accessorsInfo[i]).value
  {
    var nAccessors := |accessorsInfo|;
    var newAccessors := new Option<Accessor>[nAccessors](_ => None);
    var i := 0;
    while i < nAccessors
      invariant 0 <= i <= nAccessors
      invariant forall j :: 0 <= j < i ==> AccessorSlot(views, accessorsInfo[j]).Ok?
      invariant forall j :: 0 <= j < i ==> newAccessors[j] == AccessorSlot(views, accessorsInfo[j]).value
      invariant forall j :: i <= j < nAccessors ==> newAccessors[j] == None
    {
      var accessorToken := accessorsInfo[i];
      if accessorToken.Dict? {
        var parsed := ParseAccessor(views, accessorToken.fields);
        if parsed.Fault? {
          return Fault;
        }
        newAccessors[i] := parsed.value;
      }
      i := i + 1;
    }
    return Ok(newAccessors[..]);
  }

  // ---------------------------------------------------------------------
  // Floats to vectors.

  /** `floatsToVector3`: `floats.Length / 3` vectors, vector v made of
      floats 3v, 3v+1 and 3v+2; the newer loader's packed reshaping
      gives the same vectors. */
  method FloatsToVector3(floats: seq<F32>) returns (ret: array<Reshape.Vec3>)
    ensures fresh(ret)
    ensures ret.Length == |floats| / 3
    ensures forall v :: 0 <= v < ret.Length ==>
      ret[v] == Reshape.Vec3(floats[3 * v], floats[3 * v + 1], floats[3 * v + 2])
    ensures ret[..] == Vectors3(floats)
  {
    var nFloats := |floats|;
    var nVectors := nFloats / 3;
    ret := new Reshape.Vec3[nVectors];
    var v := 0;
    var f := 0;
    while v < nVectors
      invariant 0 <= v <= nVectors && f == 3 * v
      invariant forall j :: 0 <= j < v ==>
        ret[j] == Reshape.Vec3(floats[3 * j], floats[3 * j + 1], floats[3 * j + 2])
    {
      ret[v] := Reshape.Vec3(floats[f + 0], floats[f + 1], floats[f + 2]);
      v := v + 1;
      f := f + 3;
    }
  }

  /** The vectors `floatsToVector3` makes of a float run; they are the
      newer loader's packed (stride 0) reshaping. */
  function Vectors3(floats: seq<F32>): (vs: seq<Reshape.Vec3>)
    ensures |vs| == |floats| / 3
    ensures Reshape.Vector3s(floats, |floats|, 0) == Ok(vs)
  {
    var vs := seq(|floats| / 3, v requires 0 <= v < |floats| / 3 =>
      Reshape.Vec3(floats[3 * v], floats[3 * v + 1], floats[3 * v + 2]));
    PackedVector3s(floats, vs);
    vs
  }

  lemma PackedVector3s(floats: seq<F32>, vs: seq<Reshape.Vec3>)
    requires |vs| == |floats| / 3
    requires forall v :: 0 <= v < |vs| ==> vs[v] == Reshape.Vec3(floats[3 * v], floats[3 * v + 1], floats[3 * v + 2])
    ensures Reshape.Vector3s(floats, |floats|, 0) == Ok(vs)
  {
    var n := |floats| / 3;
    assert Int32.Div(|floats|, 3) == n;
    forall v: nat | v < n ensures Reshape.Base(3, v) + 3 <= |floats| { }
    assert Reshape.GroupsFit(|floats|, 3, 3, n);
    assert Reshape.Vector3Values(floats, 3, n) == vs;
  }

  /** `floatsToVector2`: `floats.Length / 2` vectors, vector v made of
      floats 2v and 2v+1. */
  method FloatsToVector2(floats: seq<F32>) returns (ret: array<Reshape.Vec2>)
    ensures fresh(ret)
    ensures ret.Length == |floats| / 2
    ensures forall v :: 0 <= v < ret.Length ==> ret[v] == Reshape.Vec2(floats[2 * v], floats[2 * v + 1])
    ensures ret[..] == Vectors2(floats)
  {
    var nFloats := |floats|;
    var nVectors := nFloats / 2;
    ret := new Reshape.Vec2[nVectors];
    var v := 0;
    var f := 0;
    while v < nVectors
      invariant 0 <= v <= nVectors && f == 2 * v
      invariant forall j :: 0 <= j < v ==> ret[j] == Reshape.Vec2(floats[2 * j], floats[2 * j + 1])
    {
      ret[v] := Reshape.Vec2(floats[f + 0], floats[f + 1]);
      v := v + 1;
      f := f + 2;
    }
  }

  function Vectors2(floats: seq<F32>): (vs: seq<Reshape.Vec2>)
    ensures |vs| == |floats| / 2
    ensures Reshape.Vector2s(floats, |floats|, 0) == Ok(vs)
  {
    var vs := seq(|floats| / 2, v requires 0 <= v < |floats| / 2 => Reshape.Vec2(floats[2 * v], floats[2 * v + 1]));
    PackedVector2s(floats, vs);
    vs
  }

  lemma PackedVector2s(floats: seq<F32>, vs: seq<Reshape.Vec2>)
    requires |vs| == |floats| / 2
    requires forall v :: 0 <= v < |vs| ==> vs[v] == Reshape.Vec2(floats[2 * v], floats[2 * v + 1])
    ensures Reshape.Vector2s(floats, |floats|, 0) == Ok(vs)
  {
    var n := |floats| / 2;
    assert Int32.Div(|floats|, 2) == n;
    forall v: nat | v < n ensures Reshape.Base(2, v) + 2 <= |floats| { }
    assert Reshape.GroupsFit(|floats|, 2, 2, n);
    assert Reshape.Vector2Values(floats, 2, n) == vs;
  }

  /** Vectors written out as floats come back unchanged. */
  lemma {:induction false} VectorsRoundTrip(v3: seq<Reshape.Vec3>, v2: seq<Reshape.Vec2>)
    ensures Vectors3(Reshape.Flatten3(v3)) == v3
    ensures Vectors2(Reshape.Flatten2(v2)) == v2
  {
    Reshape.Vector3sRoundTrip(v3, 0);
    Reshape.Vector2sRoundTrip(v2, 0);
  }

  // ---------------------------------------------------------------------
  // Primitives and meshes.

  /** A two-pair check looks at the first pair only. */
  lemma FirstPairOnly(dict: Dictionary, fields: seq<Document.Field>)
    requires |fields| == 2
    ensures CheckedFieldsOk(dict, fields) <==> Document.FieldOk(dict, fields[0])
  {
    assert Even(0) && !Even(1);
    if Document.FieldOk(dict, fields[0]) {
      forall j | 0 <= j < |fields| && Even(j) ensures Document.FieldOk(dict, fields[j]) {
        assert j == 0;
      }
    }
  }

  const PRIMITIVE_FIELDS: seq<Document.Field> := [Document.Field("attributes", TDataDictionary), Document.Field("indices", TDouble)]
  const ATTRIBUTE_FIELDS: seq<Document.Field> := [Document.Field("POSITION", TDouble), Document.Field("NORMAL", TDouble)]

  /** A primitive that passes both checks of `GetSubmeshInfo` but whose
      "NORMAL" attribute or "indices" is not a number: their casts throw. */
  predicate SubmeshThrows(primitive: Dictionary)
  {
    && Document.FieldOk(primitive, Document.Field("attributes", TDataDictionary))
    && Document.FieldOk(primitive["attributes"].fields, Document.Field("POSITION", TDouble))
    && !(Get(primitive["attributes"].fields, "NORMAL").Number? && Get(primitive, "indices").Number?)
  }

  /** The specification of `GetSubmeshInfo`.  Its first check looks only
      at "attributes" and its second only at "POSITION"; "NORMAL" and
      "indices" are then cast.  Whenever it does not throw it classifies
      the primitive exactly as the newer loader does. */
  function SubmeshInfoOf(primitive: Dictionary): (r: Run<Option<Document.Submesh>>)
    ensures r.Fault? <==> SubmeshThrows(primitive)
    ensures r.Ok? ==> r.value == Document.GetSubmeshInfo(primitive)
  {
    if !Document.FieldOk(primitive, Document.Field("attributes", TDataDictionary)) then Ok(None)
    else
      var attributes := primitive["attributes"].fields;
      if !Document.FieldOk(attributes, Document.Field("POSITION", TDouble)) then Ok(None)
      else
        match AsDouble(Get(attributes, "NORMAL"))
        case Fault => Fault
        case Ok(normals) =>
          match AsDouble(Get(primitive, "indices"))
          case Fault => Fault
          case Ok(indices) =>
            Ok(Some(Document.Submesh(
              Int32.DoubleToInt(attributes["POSITION"].n),
              Int32.DoubleToInt(normals),
              Document.DictOptInt(attributes, "TEXCOORD_0", -1),
              Int32.DoubleToInt(indices),
              Document.DictOptInt(primitive, "material", -1))))
  }

  /** `GetSubmeshInfo`: the accessor indices of one primitive (UVs and
      material default to -1). */
  method GetSubmeshInfo(primitive: Dictionary) returns (r: Run<Option<Document.Submesh>>)
    ensures r == SubmeshInfoOf(primitive)
  {
    var check := CheckFields(primitive, PRIMITIVE_FIELDS);
    FirstPairOnly(primitive, PRIMITIVE_FIELDS);
    if !check {
      return Ok(None);
    }
    var attributes := primitive["attributes"].fields;
    check := CheckFields(attributes, ATTRIBUTE_FIELDS);
    FirstPairOnly(attributes, ATTRIBUTE_FIELDS);
    if !check {
      return Ok(None);
    }
    var positionsView := Int32.DoubleToInt(attributes["POSITION"].n);
    var normals := AsDouble(Get(attributes, "NORMAL"));
    if normals.Fault? {
      return Fault;
    }
    var indices := AsDouble(Get(primitive, "indices"));
    if indices.Fault? {
      return Fault;
    }
    var uvsView := Document.DictOptInt(attributes, "TEXCOORD_0", -1);
    var materialIndex := Document.DictOptInt(primitive, "material", -1);
    return Ok(Some(Document.Submesh(positionsView, Int32.DoubleToInt(normals.value), uvsView,
                                    Int32.DoubleToInt(indices.value), materialIndex)));
  }

  /** A listed primitive on which `GetSubmeshInfo` throws. */
  predicate PrimitiveThrows(t: Token)
  {
    t.Dict? && SubmeshThrows(t.fields)
  }

  const MESH_FIELDS: seq<Document.Field> := [Document.Field("name", TString), Document.Field("primitives", TDataList)]

  /** The specification of `GetMeshInfo`: its check looks only at "name",
      so a mesh without a string name is skipped, while "primitives" is
      cast to a list, which throws when it is not one; a primitive on which
      `GetSubmeshInfo` throws ends the load.  Otherwise the mesh is packed
      as the newer loader packs it, under its own name. */
  function MeshInfoOf(mesh: Dictionary): (r: Run<Option<Document.MeshInfo>>)
    ensures !Document.FieldOk(mesh, MESH_FIELDS[0]) ==> r == Ok(None)
    ensures Document.FieldOk(mesh, MESH_FIELDS[0]) ==>
      (r.Fault? <==> !IsList(mesh, "primitives") ||
                     exists m :: 0 <= m < |mesh["primitives"].items| && PrimitiveThrows(mesh["primitives"].items[m]))
    ensures r.Ok? && r.value.Some? ==>
      && Document.MeshInfoOf(mesh) == r.value
      && r.value.value.name == mesh["name"].s
      && r.value.value.nSubmeshes == |Document.ValidSubmeshes(mesh["primitives"].items)|
  {
    if !Document.FieldOk(mesh, MESH_FIELDS[0]) then Ok(None)
    else if !IsList(mesh, "primitives") then Fault
    else if exists m :: 0 <= m < |mesh["primitives"].items| && PrimitiveThrows(mesh["primitives"].items[m]) then Fault
    else Ok(Document.MeshInfoOf(mesh))
  }

  /** `GetMeshInfo`: the name check, the cast of the primitive list,
      then the packing loop. */
  method GetMeshInfo(mesh: Dictionary) returns (r: Run<Option<Document.MeshInfo>>)
    ensures r == MeshInfoOf(mesh)
  {
    var check := CheckFields(mesh, MESH_FIELDS);
    FirstPairOnly(mesh, MESH_FIELDS);
    if !check {
      return Ok(None);
    }
    var name := mesh["name"].s;
    var cast := AsList(Get(mesh, "primitives"));
    if cast.Fault? {
      return Fault;
    }
    var ok, n, views, materialsIndices := PackChecked(cast.value);
    if !ok {
      return Fault;
    }
    MeshInfoPacked(mesh);
    return Ok(Some(Document.MeshInfo(name, n, views, materialsIndices)));
  }

  /** The loop of `GetMeshInfo`: the packing loop of the newer loader
      with the throwing casts of this `GetSubmeshInfo` in front of each
      primitive. */
  method PackChecked(primitives: seq<Token>) returns (ok: bool, actualNumberOfMeshes: nat, views: seq<int>, materialsIndices: seq<int>)
    ensures ok <==> forall j :: 0 <= j < |primitives| ==> !PrimitiveThrows(primitives[j])
    ensures ok ==> actualNumberOfMeshes == |Document.ValidSubmeshes(primitives)|
    ensures ok ==> views == Document.Views(Document.ValidSubmeshes(primitives)) + Document.Zeros(4 * (|primitives| - actualNumberOfMeshes))
    ensures ok ==> materialsIndices == Document.MaterialSlots(primitives)
  {
    var nMeshes := |primitives|;
    views := Document.Zeros(4 * nMeshes);
    materialsIndices := Document.Zeros(nMeshes);
    actualNumberOfMeshes := 0;
    var v := 0;
    var m := 0;
    ghost var cls := Document.Classified(primitives);
    Document.PackStart(cls);
    while m < nMeshes
      invariant 0 <= m <= nMeshes
      invariant Document.PackedViews(cls, m, views, v) && Document.PackedMaterials(cls, m, materialsIndices)
      invariant forall j :: 0 <= j < m ==> !PrimitiveThrows(primitives[j])
    {
      var token := ListTryGetValue(primitives, m, TDataDictionary);
      if token.Some? {
        var sub := GetSubmeshInfo(token.value.fields);
        if sub.Fault? {
          return false, 0, views, materialsIndices;
        }
      }
      views, materialsIndices, v := Document.PackNext(primitives, cls, m, views, materialsIndices, v);
      m := m + 1;
    }
    Document.PackFinish(primitives, cls, views, v, materialsIndices);
    return true, v / 4, views, materialsIndices;
  }

  lemma MeshInfoPacked(mesh: Dictionary)
    requires Document.FieldOk(mesh, MESH_FIELDS[0]) && IsList(mesh, "primitives")
    requires forall j :: 0 <= j < |mesh["primitives"].items| ==> !PrimitiveThrows(mesh["primitives"].items[j])
    ensures var primitives := mesh["primitives"].items;
      var subs := Document.ValidSubmeshes(primitives);
      MeshInfoOf(mesh) == Ok(Some(Document.MeshInfo(mesh["name"].s, |subs|,
        Document.Views(subs) + Document.Zeros(4 * (|primitives| - |subs|)), Document.MaterialSlots(primitives))))
  {
  }

  /** The mesh `LoadMeshFrom` builds: vertices, normals, optional UVs and
      the triangle indices.  A bare `new Mesh()` is `EMPTY`. */
  datatype Geometry = Geometry(vertices: seq<Reshape.Vec3>, normals: seq<Reshape.Vec3>, uv: Option<seq<Reshape.Vec2>>, indices: seq<nat>)

  const EMPTY: Geometry := Geometry([], [], None, [])

  /** The UV part of `LoadMeshFrom`: only a positive UV index is used; a
      missing accessor or a view of another kind leaves the UVs unset,
      and a null view makes its type test throw. */
  function UvsOf(accessors: seq<Option<Accessor>>, uvsView: int): (r: Run<Option<seq<Reshape.Vec2>>>)
    requires uvsView < |accessors|
    ensures uvsView <= 0 ==> r == Ok(None)
    ensures r.Fault? <==> uvsView > 0 && accessors[uvsView].Some? && accessors[uvsView].value.view.NoView?
    ensures r.Ok? && r.value.Some? ==>
      accessors[uvsView].Some? && accessors[uvsView].value.view.Floats? &&
      r.value.value == Vectors2(accessors[uvsView].value.view.floats)
  {
    if uvsView <= 0 then Ok(None)
    else
      match accessors[uvsView]
      case None => Ok(None)
      case Some(a) =>
        if a.view.NoView? then Fault
        else if a.view.Floats? then Ok(Some(Vectors2(a.view.floats)))
        else Ok(None)
  }

  /** Positions and normals are float views and indices a 16-bit view. */
  predicate Typed(p: View, n: View, i: View)
  {
    p.Floats? && n.Floats? && i.Ushorts?
  }

  /** The specification of `LoadMeshFrom` for the four accessor indices
      stored at `startOffset`: an empty mesh when one of them is at or
      past the end of the accessor array (the four tests are all made),
      a throw on a negative position, normal or index accessor, an empty
      mesh when one of these three is null or has the wrong kind of
      buffer (a null buffer throws on its type test), and otherwise the
      reshaped buffers. */
  function GeometryOf(accessors: seq<Option<Accessor>>, meshInfo: seq<int>, startOffset: int): (r: Run<Geometry>)
    ensures !(0 <= startOffset && startOffset + 4 <= |meshInfo|) ==> r.Fault?
    ensures 0 <= startOffset && startOffset + 4 <= |meshInfo| ==>
      var q := meshInfo[startOffset..startOffset + 4];
      var n := |accessors|;
      && (q[0] >= n || q[1] >= n || q[2] >= n || q[3] >= n ==> r == Ok(EMPTY))
      && (q[0] < n && q[1] < n && q[2] < n && q[3] < n && (q[0] < 0 || q[1] < 0 || q[3] < 0) ==> r.Fault?)
      && (r.Ok? && r.value.uv.Some? ==> 0 < q[2] < n)
      && (0 <= q[0] < n && 0 <= q[1] < n && q[2] < n && 0 <= q[3] < n
          && accessors[q[0]].Some? && accessors[q[1]].Some? && accessors[q[3]].Some?
          && Typed(accessors[q[0]].value.view, accessors[q[1]].value.view, accessors[q[3]].value.view) ==>
            && (r.Ok? <==> UvsOf(accessors, q[2]).Ok?)
            && (r.Ok? ==> r.value == Geometry(Vectors3(accessors[q[0]].value.view.floats),
                                               Vectors3(accessors[q[1]].value.view.floats),
                                               UvsOf(accessors, q[2]).value,
                                               accessors[q[3]].value.view.ushorts)))
  {
    if !(0 <= startOffset && startOffset + 4 <= |meshInfo|) then Fault
    else
      var n := |accessors|;
      var positionsView := meshInfo[startOffset + 0];
      var normalsView := meshInfo[startOffset + 1];
      var uvsView := meshInfo[startOffset + 2];
      var indicesView := meshInfo[startOffset + 3];
      if positionsView >= n || normalsView >= n || uvsView >= n || indicesView >= n then Ok(EMPTY)
      else if positionsView < 0 || normalsView < 0 || indicesView < 0 then Fault
      else if accessors[positionsView].None? || accessors[normalsView].None? || accessors[indicesView].None? then Ok(EMPTY)
      else
        var p := accessors[positionsView].value.view;
        var nr := accessors[normalsView].value.view;
        var i := accessors[indicesView].value.view;
        if p.NoView? || nr.NoView? || i.NoView? then Fault
        else if !Typed(p, nr, i) then Ok(EMPTY)
        else
          match UvsOf(accessors, uvsView)
          case Fault => Fault
          case Ok(uv) => Ok(Geometry(Vectors3(p.floats), Vectors3(nr.floats), uv, i.ushorts))
  }

  /** `LoadMeshFrom`. */
  method LoadMeshFrom(accessors: seq<Option<Accessor>>, meshInfo: seq<int>, startOffset: int) returns (r: Run<Geometry>)
    ensures r == GeometryOf(accessors, meshInfo, startOffset)
  {
    var nAccessors := |accessors|;
    if !(0 <= startOffset && startOffset + 4 <= |meshInfo|) {
      return Fault;
    }
    var positionsView := meshInfo[startOffset + 0];
    var normalsView := meshInfo[startOffset + 1];
    var uvsView := meshInfo[startOffset + 2];
    var indicesView := meshInfo[startOffset + 3];
    if positionsView >= nAccessors || normalsView >= nAccessors || uvsView >= nAccessors || indicesView >= nAccessors {
      return Ok(EMPTY);
    }
    if positionsView < 0 || normalsView < 0 || indicesView < 0 {
      return Fault;
    }
    var positionsAccessor := accessors[positionsView];
    var normalsAccessor := accessors[normalsView];
    var indicesAccessor := accessors[indicesView];
    if positionsAccessor.None? || normalsAccessor.None? || indicesAccessor.None? {
      return Ok(EMPTY);
    }
    var positionsBuffer := positionsAccessor.value.view;
    var normalsBuffer := normalsAccessor.value.view;
    var indicesBuffer := indicesAccessor.value.view;
    if positionsBuffer.NoView? || normalsBuffer.NoView? || indicesBuffer.NoView? {
      return Fault;
    }
    if !(positionsBuffer.Floats? && normalsBuffer.Floats? && indicesBuffer.Ushorts?) {
      return Ok(EMPTY);
    }
    var vertices := FloatsToVector3(positionsBuffer.floats);
    var normals := FloatsToVector3(normalsBuffer.floats);
    var uv: Option<seq<Reshape.Vec2>> := None;
    if uvsView > 0 {
      var uvsAccessor := accessors[uvsView];
      if uvsAccessor.Some? {
        var uvsBuffer := uvsAccessor.value.view;
        if uvsBuffer.NoView? {
          return Fault;
        }
        if uvsBuffer.Floats? {
          var uvs := FloatsToVector2(uvsBuffer.floats);
          uv := Some(uvs[..]);
        }
      }
    }
    return Ok(Geometry(vertices[..], normals[..], uv, indicesBuffer.ushorts));
  }

  /** A loaded mesh: its name, one submesh per usable primitive and the
      material index of every primitive (indexed by primitive, not by
      submesh). */
  datatype MeshEntry = MeshEntry(name: string, submeshes: seq<Geometry>, materials: seq<int>)

  /** The first n submeshes `LoadMesh` builds, submesh s from the four
      indices at 4s; the first one that throws ends the load. */
  function Submeshes(accessors: seq<Option<Accessor>>, views: seq<int>, n: nat): (r: Run<seq<Geometry>>)
    ensures r.Ok? ==> |r.value| == n && forall s :: 0 <= s < n ==> GeometryOf(accessors, views, 4 * s) == Ok(r.value[s])
    ensures r.Fault? ==> exists s :: 0 <= s < n && GeometryOf(accessors, views, 4 * s).Fault?
  {
    if n == 0 then Ok([])
    else
      match Submeshes(accessors, views, n - 1)
      case Fault => Fault
      case Ok(gs) =>
        match GeometryOf(accessors, views, 4 * (n - 1))
        case Fault => Fault
        case Ok(g) => Ok(gs + [g])
  }

  /** The specification of `LoadMesh`: null when `GetMeshInfo` fails,
      otherwise the mesh combined from its submeshes. */
  function MeshOf(accessors: seq<Option<Accessor>>, mesh: Dictionary): (r: Run<Option<MeshEntry>>)
  {
    match MeshInfoOf(mesh)
    case Fault => Fault
    case Ok(None) => Ok(None)
    case Ok(Some(info)) =>
      match Submeshes(accessors, info.views, info.nSubmeshes)
      case Fault => Fault
      case Ok(gs) => Ok(Some(MeshEntry(info.name, gs, info.materials)))
  }

  /** `LoadMesh`: one submesh per packed quadruple, in order. */
  method LoadMesh(accessors: seq<Option<Accessor>>, meshInfo: Dictionary) returns (r: Run<Option<MeshEntry>>)
    ensures r == MeshOf(accessors, meshInfo)
  {
    var gotMeshInfo := GetMeshInfo(meshInfo);
    if gotMeshInfo.Fault? {
      return Fault;
    }
    if gotMeshInfo.value.None? {
      return Ok(None);
    }
    var info := gotMeshInfo.value.value;
    var nSubmeshes := info.nSubmeshes;
    var instances: seq<Geometry> := [];
    var s := 0;
    while s < nSubmeshes
      invariant 0 <= s <= nSubmeshes
      invariant Submeshes(accessors, info.views, s) == Ok(instances)
    {
      var instance := LoadMeshFrom(accessors, info.views, s * 4);
      SubmeshesNext(accessors, info.views, s, instances);
      if instance.Fault? {
        SubmeshesFaultPersists(accessors, info.views, s + 1, nSubmeshes);
        return Fault;
      }
      instances := instances + [instance.value];
      s := s + 1;
    }
    return Ok(Some(MeshEntry(info.name, instances, info.materials)));
  }

  lemma SubmeshesNext(accessors: seq<Option<Accessor>>, views: seq<int>, s: nat, gs: seq<Geometry>)
    requires Submeshes(accessors, views, s) == Ok(gs)
    ensures GeometryOf(accessors, views, s * 4).Fault? ==> Submeshes(accessors, views, s + 1).Fault?
    ensures GeometryOf(accessors, views, s * 4).Ok? ==>
      Submeshes(accessors, views, s + 1) == Ok(gs + [GeometryOf(accessors, views, s * 4).value])
  {
    assert 4 * s == s * 4;
  }

  lemma {:induction false} SubmeshesFaultPersists(accessors: seq<Option<Accessor>>, views: seq<int>, k: nat, n: nat)
    requires k <= n && Submeshes(accessors, views, k).Fault?
    ensures Submeshes(accessors, views, n).Fault?
    decreases n - k
  {
    if k < n {
      SubmeshesFaultPersists(accessors, views, k + 1, n);
    }
  }

  /** `GeometryOf` reads only the four indices at its offset. */
  lemma GeometryWindow(accessors: seq<Option<Accessor>>, views: seq<int>, at: nat)
    requires at + 4 <= |views|
    ensures GeometryOf(accessors, views, at) == GeometryOf(accessors, views[at..at + 4], 0)
  {
    assert views[at..at + 4][0..4] == views[at..at + 4];
  }

  /** A loaded mesh has one submesh per usable primitive, submesh s
      being built from the accessors of the s-th usable primitive, and
      one material index per listed primitive. */
  lemma MeshOfSpec(accessors: seq<Option<Accessor>>, mesh: Dictionary)
    requires MeshOf(accessors, mesh).Ok? && MeshOf(accessors, mesh).value.Some?
    ensures var e := MeshOf(accessors, mesh).value.value;
      var primitives := mesh["primitives"].items;
      var subs := Document.ValidSubmeshes(primitives);
      && e.name == mesh["name"].s
      && |e.submeshes| == |subs|
      && (forall s :: 0 <= s < |subs| ==>
            GeometryOf(accessors, Document.Quad(subs[s]), 0) == Ok(e.submeshes[s]))
      && e.materials == Document.MaterialSlots(primitives)
  {
    var info := MeshInfoOf(mesh).value.value;
    var primitives := mesh["primitives"].items;
    var subs := Document.ValidSubmeshes(primitives);
    MeshInfoPacked(mesh);
    var gs := Submeshes(accessors, info.views, info.nSubmeshes).value;
    forall s | 0 <= s < |subs|
      ensures GeometryOf(accessors, Document.Quad(subs[s]), 0) == Ok(gs[s])
    {
      QuadGeometry(accessors, subs, info.views, s);
    }
  }

  /** Submesh s of a packed mesh reads the quadruple of its own primitive. */
  lemma QuadGeometry(accessors: seq<Option<Accessor>>, subs: seq<Document.Submesh>, views: seq<int>, s: nat)
    requires s < |subs| && 4 * |subs| <= |views| && views[..4 * |subs|] == Document.Views(subs)
    ensures GeometryOf(accessors, views, 4 * s) == GeometryOf(accessors, Document.Quad(subs[s]), 0)
  {
    QuadWindow(subs, views, s);
    GeometryWindow(accessors, views, 4 * s);
  }

  lemma QuadWindow(subs: seq<Document.Submesh>, views: seq<int>, s: nat)
    requires s < |subs| && 4 * |subs| <= |views| && views[..4 * |subs|] == Document.Views(subs)
    ensures 4 * s + 4 <= |views| && views[4 * s..4 * s + 4] == Document.Quad(subs[s])
  {
    Document.ViewsAt(subs, s);
    WindowOfPrefix(views, 4 * |subs|, 4 * s);
  }

  lemma WindowOfPrefix(views: seq<int>, n: nat, at: nat)
    requires at + 4 <= n <= |views|
    ensures views[at..at + 4] == views[..n][at..at + 4]
  {
  }

  /** The slot of one listed mesh: anything but a dictionary, and a mesh
      `LoadMesh` rejects, leave it null. */
  function MeshSlot(accessors: seq<Option<Accessor>>, t: Token): Run<Option<MeshEntry>>
  {
    if t.Dict? then MeshOf(accessors, t.fields) else Ok(None)
  }

  // ---------------------------------------------------------------------
  // Materials.

  /** `CreateMaterialFrom` throws only on a four-element
      "pbrMetallicRoughness.baseColorFactor" list that does not hold four
      numbers: the element type test always passes and the colour casts
      fail. */
  predicate ColorThrows(info: Dictionary)
  {
    && "pbrMetallicRoughness" in info && info["pbrMetallicRoughness"].Dict?
    && var pbr := info["pbrMetallicRoughness"].fields;
       "baseColorFactor" in pbr && pbr["baseColorFactor"].List? && |pbr["baseColorFactor"].items| == 4
       && !Document.AllNumbers(pbr["baseColorFactor"].items, 4)
  }

  /** The slot of one listed material: null for anything but a
      dictionary, otherwise the material made from that entry (recorded
      by the entry itself). */
  function MaterialSlot(t: Token): (r: Run<Option<Dictionary>>)
    ensures r.Fault? <==> t.Dict? && ColorThrows(t.fields)
    ensures r.Ok? ==> (r.value.Some? <==> t.Dict?)
  {
    if !t.Dict? then Ok(None)
    else if ColorThrows(t.fields) then Fault
    else Ok(Some(t.fields))
  }

  /** `ParseMaterials`: one slot per listed material, in order. */
  method ParseMaterials(materialsInfo: seq<Token>) returns (r: Run<seq<Option<Dictionary>>>)
    ensures r.Ok? <==> forall m :: 0 <= m < |materialsInfo| ==> MaterialSlot(materialsInfo[m]).Ok?
    ensures r.Ok? ==> |r.value| == |materialsInfo|
    ensures r.Ok? ==> forall m :: 0 <= m < |materialsInfo| ==> r.value[m] == MaterialSlot(materialsInfo[m]).value
  {
    var nMaterials := |materialsInfo|;
    var materials := new Option<Dictionary>[nMaterials](_ => None);
    var m := 0;
    while m < nMaterials
      invariant 0 <= m <= nMaterials
      invariant forall j :: 0 <= j < m ==> MaterialSlot(materialsInfo[j]).Ok?
      invariant forall j :: 0 <= j < m ==> materials[j] == MaterialSlot(materialsInfo[j]).value
    {
      var materialInfoToken := materialsInfo[m];
      if !materialInfoToken.Dict? {
        materials[m] := None;
      } else {
        var made := MaterialSlot(materialInfoToken);
        if made.Fault? {
          return Fault;
        }
        materials[m] := made.value;
      }
      m := m + 1;
    }
    return Ok(materials[..]);
  }

  // ---------------------------------------------------------------------
  // Nodes.

  /** A spawned node: its name, local transform, the index of its parent
      among the nodes spawned by the same load (none: the loader's root
      transform), and the mesh and materials its filter and renderer were
      given. */
  datatype NodeObject = NodeObject(
    name: string,
    position: Document.Vector3,
    rotation: Document.Rotation,
    scale: Document.Scale,
    parent: Option<nat>,
    mesh: Option<MeshEntry>,
    materials: Option<seq<Scene.SharedMaterial>>)

  /** A copy of the node prefab, spawned under the loader's root. */
  function Spawn(prefab: NodeObject): NodeObject
  {
    prefab.(parent := None)
  }

  /** `ParseNode`: the newer loader's node parsing without its "matrix"
      branch: a "matrix" entry is ignored, and the translation, rotation
      and scale lists are read (and may throw) as there. */
  method ParseNode(node: Dictionary) returns (r: Run<Document.NodeInfo>)
    ensures r == Document.NodeOf(node - {"matrix"})
    ensures r.Ok? ==> r.value.rotation.Quat? && r.value.scale.ScaleVector?
  {
    ghost var plain := node - {"matrix"};
    SameWithoutMatrix(node);
    var meshIndex := Document.DictOptInt(node, "mesh", -1);
    var name := Document.DictOptString(node, "name", "");
    var position := Document.DictOptVector3(node, "translation", Document.Zero);
    if position.Fault? {
      return Fault;
    }
    var rotation := Document.DictOptQuaternion(node, "rotation", Document.IdentityRotation);
    if rotation.Fault? {
      return Fault;
    }
    var scale := Document.DictOptVector3(node, "scale", Document.One);
    if scale.Fault? {
      return Fault;
    }
    var children: seq<int> := [];
    var childrenToken := TryGetValue(node, "children", TDataList);
    if childrenToken.Some? {
      var childrenList := childrenToken.value.items;
      var nChildren := |childrenList|;
      var arr := new int[nChildren];
      var c := 0;
      while c < nChildren
        invariant 0 <= c <= nChildren
        invariant forall j :: 0 <= j < c ==> arr[j] == Document.ChildIndex(childrenList[j])
      {
        var nodeIndexToken := ListTryGetValue(childrenList, c, TDouble);
        if nodeIndexToken.Some? {
          arr[c] := Int32.DoubleToInt(nodeIndexToken.value.n);
        } else {
          arr[c] := -1;
        }
        c := c + 1;
      }
      children := arr[..];
      assert children == seq(nChildren, c requires 0 <= c < nChildren => Document.ChildIndex(childrenList[c]));
    }
    r := Ok(Document.NodeInfo(meshIndex, name, position.value, Document.Quat(rotation.value),
                              Document.ScaleVector(scale.value), children));
  }

  /** Dropping "matrix" changes none of the other lookups. */
  lemma SameWithoutMatrix(node: Dictionary)
    ensures var plain := node - {"matrix"};
      && "matrix" !in plain
      && Document.DictOptInt(plain, "mesh", -1) == Document.DictOptInt(node, "mesh", -1)
      && Document.DictOptString(plain, "name", "") == Document.DictOptString(node, "name", "")
      && Document.DictOptVector3(plain, "translation", Document.Zero) == Document.DictOptVector3(node, "translation", Document.Zero)
      && Document.DictOptQuaternion(plain, "rotation", Document.IdentityRotation) == Document.DictOptQuaternion(node, "rotation", Document.IdentityRotation)
      && Document.DictOptVector3(plain, "scale", Document.One) == Document.DictOptVector3(node, "scale", Document.One)
      && Document.ChildrenOf(plain) == Document.ChildrenOf(node)
  {
    var plain := node - {"matrix"};
    assert |"mesh"| != |"matrix"| && |"name"| != |"matrix"| && |"translation"| != |"matrix"|;
    assert |"rotation"| != |"matrix"| && |"scale"| != |"matrix"| && |"children"| != |"matrix"|;
    assert TryGetValue(plain, "children", TDataList) == TryGetValue(node, "children", TDataList);
  }

  /** The specification of `SetupMesh`: a mesh index below 0 or above
      `maxMeshIndex` leaves the node alone; an index that passes that test
      but lies past the mesh array throws; a null slot leaves the node
      alone; otherwise the node shows the mesh with one material per
      material index (`Scene.MaterialsFor`: the loader's material for an
      index in range, a fresh default material otherwise).  Nothing else
      about the node changes. */
  function WithMesh(node: NodeObject, meshes: seq<Option<MeshEntry>>, meshIndex: int, maxMeshIndex: int, nKnown: int): (r: Run<NodeObject>)
    ensures meshIndex < 0 || meshIndex > maxMeshIndex ==> r == Ok(node)
    ensures 0 <= meshIndex <= maxMeshIndex && meshIndex >= |meshes| ==> r.Fault?
    ensures 0 <= meshIndex <= maxMeshIndex && meshIndex < |meshes| ==> r.Ok?
    ensures r.Ok? ==> r.value.(mesh := node.mesh, materials := node.materials) == node
    ensures r.Ok? && r.value != node ==>
      && 0 <= meshIndex < |meshes| && meshes[meshIndex].Some?
      && r.value.mesh == Some(meshes[meshIndex].value)
      && r.value.materials == Some(Scene.MaterialsFor(meshes[meshIndex].value.materials, nKnown))
  {
    if meshIndex < 0 || meshIndex > maxMeshIndex then Ok(node)
    else if meshIndex >= |meshes| then Fault
    else
      match meshes[meshIndex]
      case None => Ok(node)
      case Some(entry) => Ok(node.(mesh := Some(entry), materials := Some(Scene.MaterialsFor(entry.materials, nKnown))))
  }

  /** With the mesh array's length passed as `maxMeshIndex`, as
      `ParseNodes` does, a node naming the mesh one past the last makes
      `SetupMesh` throw. */
  lemma SetupMeshOnePastTheEnd(node: NodeObject, meshes: seq<Option<MeshEntry>>, nKnown: int)
    ensures WithMesh(node, meshes, |meshes|, |meshes|, nKnown).Fault?
  {
  }

  /** `SetupMesh`, with its material loop. */
  method SetupMesh(node: NodeObject, meshes: seq<Option<MeshEntry>>, meshIndex: int, maxMeshIndex: int, nKnown: int)
    returns (r: Run<NodeObject>)
    ensures r == WithMesh(node, meshes, meshIndex, maxMeshIndex, nKnown)
  {
    if meshIndex < 0 || meshIndex > maxMeshIndex {
      return Ok(node);
    }
    if meshIndex >= |meshes| {
      return Fault;
    }
    var meshInfo := meshes[meshIndex];
    if meshInfo.None? {
      return Ok(node);
    }
    var materialsIndices := meshInfo.value.materials;
    var nIndices := |materialsIndices|;
    var sharedMaterials := new Scene.SharedMaterial[nIndices](_ => Scene.NewMaterial);
    var k := 0;
    while k < nIndices
      invariant 0 <= k <= nIndices
      invariant forall j :: 0 <= j < k ==> sharedMaterials[j] == Scene.MaterialsFor(materialsIndices, nKnown)[j]
    {
      var materialIndex := materialsIndices[k];
      if 0 <= materialIndex < nKnown {
        sharedMaterials[k] := Scene.Known(materialIndex);
      } else {
        sharedMaterials[k] := Scene.NewMaterial;
      }
      k := k + 1;
    }
    assert sharedMaterials[..] == Scene.MaterialsFor(materialsIndices, nKnown);
    return Ok(node.(mesh := Some(meshInfo.value), materials := Some(sharedMaterials[..])));
  }

  /** What one entry of the "nodes" list amounts to: skipped (not a
      dictionary), broken (one of its transform lists throws), or the
      parsed node. */
  datatype Entry = Skipped | Broken | Parsed(info: Document.NodeInfo)

  function EntryOf(t: Token): (e: Entry)
    ensures e.Skipped? <==> !t.Dict?
    ensures e.Broken? <==> t.Dict? && Document.NodeOf(t.fields - {"matrix"}).Fault?
    ensures e.Parsed? ==> Ok(e.info) == Document.NodeOf(t.fields - {"matrix"})
  {
    if !t.Dict? then Skipped
    else
      match Document.NodeOf(t.fields - {"matrix"})
      case Fault => Broken
      case Ok(info) => Parsed(info)
  }

  function Entries(list: seq<Token>): (es: seq<Entry>)
    ensures |es| == |list|
  {
    seq(|list|, i requires 0 <= i < |list| => EntryOf(list[i]))
  }

  /** The children an entry lists. */
  function ListedChildren(e: Entry): seq<int>
  {
    if e.Parsed? then e.info.children else []
  }

  /** The visit of node n, before its children are parented: its mesh,
      name and local transform. */
  function Visited(node: NodeObject, e: Entry, meshes: seq<Option<MeshEntry>>, maxMeshIndex: int, nKnown: int): Run<NodeObject>
  {
    match e
    case Skipped => Ok(node)
    case Broken => Fault
    case Parsed(info) =>
      match WithMesh(node, meshes, info.mesh, maxMeshIndex, nKnown)
      case Fault => Fault
      case Ok(meshed) =>
        Ok(meshed.(name := info.name, position := info.position, rotation := info.rotation, scale := info.scale))
  }

  /** The parent links of the nodes. */
  function Links(objs: seq<NodeObject>): Parents.Table
  {
    seq(|objs|, j requires 0 <= j < |objs| => objs[j].parent)
  }

  /** Every listed child in [0, nNodes) gets node n as its parent, in
      list order, unless Unity refuses because the child is n or one of
      its ancestors at that point. */
  function Reparent(objs: seq<NodeObject>, children: seq<int>, n: nat, nNodes: int): (r: seq<NodeObject>)
  {
    var t := Parents.AdoptAll(Links(objs), children, n, nNodes);
    seq(|objs|, j requires 0 <= j < |objs| => objs[j].(parent := t[j]))
  }

  /** One visit of the second pass of `ParseNodes`. */
  function Step(objs: seq<NodeObject>, e: Entry, n: nat, meshes: seq<Option<MeshEntry>>, maxMeshIndex: int, nKnown: int): Run<seq<NodeObject>>
    requires n < |objs|
  {
    match Visited(objs[n], e, meshes, maxMeshIndex, nKnown)
    case Fault => Fault
    case Ok(node) => Ok(Reparent(objs[n := node], ListedChildren(e), n, |objs|))
  }

  /** The nodes after the first hi visits of the second pass. */
  function NodesAfter(objs: seq<NodeObject>, entries: seq<Entry>, hi: nat, meshes: seq<Option<MeshEntry>>, maxMeshIndex: int, nKnown: int)
    : (r: Run<seq<NodeObject>>)
    requires |objs| == |entries| && hi <= |entries|
    ensures r.Ok? ==> |r.value| == |entries|
  {
    if hi == 0 then Ok(objs)
    else
      match NodesAfter(objs, entries, hi - 1, meshes, maxMeshIndex, nKnown)
      case Fault => Fault
      case Ok(o) => Step(o, entries[hi - 1], hi - 1, meshes, maxMeshIndex, nKnown)
  }

  /** The first pass: one prefab copy per listed node. */
  function Spawned(prefab: NodeObject, nNodes: nat): (objs: seq<NodeObject>)
    ensures |objs| == nNodes
  {
    seq(nNodes, _ => Spawn(prefab))
  }

  /** The specification of `ParseNodes`: spawn every node first, so that
      children may be listed before they are visited, then visit them in
      order. */
  function ParsedNodes(prefab: NodeObject, list: seq<Token>, meshes: seq<Option<MeshEntry>>, nKnown: int): Run<seq<NodeObject>>
  {
    NodesAfter(Spawned(prefab, |list|), Entries(list), |list|, meshes, |meshes|, nKnown)
  }

  /** The child lists of the entries. */
  function Lists(entries: seq<Entry>): (lists: seq<seq<int>>)
    ensures |lists| == |entries|
  {
    seq(|entries|, p requires 0 <= p < |entries| => ListedChildren(entries[p]))
  }

  /** The parent links after the first hi visits: the children loops of
      those entries in turn, from nodes that all sit under the root. */
  function Adopted(entries: seq<Entry>, hi: nat): (t: Parents.Table)
    requires hi <= |entries|
    ensures |t| == |entries|
  {
    Parents.AdoptEach(Parents.NoLinks(|entries|), Lists(entries), hi)
  }

  /** The visit of a node does not depend on the node's parent. */
  lemma VisitedIgnoresParent(node: NodeObject, p: Option<nat>, e: Entry, meshes: seq<Option<MeshEntry>>, maxMeshIndex: int, nKnown: int)
    ensures Visited(node.(parent := p), e, meshes, maxMeshIndex, nKnown).Fault? == Visited(node, e, meshes, maxMeshIndex, nKnown).Fault?
    ensures Visited(node, e, meshes, maxMeshIndex, nKnown).Ok? ==>
      Visited(node.(parent := p), e, meshes, maxMeshIndex, nKnown).value == Visited(node, e, meshes, maxMeshIndex, nKnown).value.(parent := p)
  {
    if e.Parsed? {
      var w := WithMesh(node, meshes, e.info.mesh, maxMeshIndex, nKnown);
      var w' := WithMesh(node.(parent := p), meshes, e.info.mesh, maxMeshIndex, nKnown);
      assert w'.Fault? == w.Fault?;
      assert w.Ok? ==> w'.value == w.value.(parent := p);
    }
  }

  /** The parenting of one visit, slot by slot: a listed child goes under
      n unless it is n or one of n's ancestors before the loop; nothing
      else changes.  The parenting keeps the nodes a forest. */
  lemma ReparentAt(objs: seq<NodeObject>, children: seq<int>, n: nat, c: int)
    requires 0 <= c < |objs|
    ensures Reparent(objs, children, n, |objs|)[c] ==
      if c in children && !Parents.Refused(Links(objs), c, n) then objs[c].(parent := Some(n)) else objs[c]
    ensures Parents.Forest(Links(objs)) && n < |objs| ==> Parents.Forest(Links(Reparent(objs, children, n, |objs|)))
  {
    Parents.AdoptAllSpec(Links(objs), children, n, |objs|);
    assert Links(Reparent(objs, children, n, |objs|)) == Parents.AdoptAll(Links(objs), children, n, |objs|);
    if Parents.Forest(Links(objs)) && n < |objs| {
      Parents.AdoptAllForest(Links(objs), children, n, |objs|);
    }
  }

  /** The nodes after hi visits, slot by slot: a node's parent is what the
      children loops of the visited entries left (the root when none
      took it), a visited node carries its own entry's mesh, name and
      transform, and an unvisited one is still a plain prefab copy. */
  predicate AfterVisits(prefab: NodeObject, entries: seq<Entry>, hi: nat, o: seq<NodeObject>, meshes: seq<Option<MeshEntry>>, maxMeshIndex: int, nKnown: int)
    requires hi <= |entries|
  {
    && |o| == |entries|
    && (forall c :: hi <= c < |entries| ==> o[c] == prefab.(parent := Adopted(entries, hi)[c]))
    && (forall c :: 0 <= c < hi ==>
          && Visited(Spawn(prefab), entries[c], meshes, maxMeshIndex, nKnown).Ok?
          && o[c] == Visited(Spawn(prefab), entries[c], meshes, maxMeshIndex, nKnown).value.(parent := Adopted(entries, hi)[c]))
  }

  /** One visit keeps `AfterVisits`. */
  lemma StepKeepsAfterVisits(prefab: NodeObject, entries: seq<Entry>, n: nat, o: seq<NodeObject>, meshes: seq<Option<MeshEntry>>, maxMeshIndex: int, nKnown: int)
    requires n < |entries|
    requires AfterVisits(prefab, entries, n, o, meshes, maxMeshIndex, nKnown)
    requires Step(o, entries[n], n, meshes, maxMeshIndex, nKnown).Ok?
    ensures AfterVisits(prefab, entries, n + 1, Step(o, entries[n], n, meshes, maxMeshIndex, nKnown).value, meshes, maxMeshIndex, nKnown)
  {
    var e := entries[n];
    var p := Adopted(entries, n)[n];
    assert o[n] == Spawn(prefab).(parent := p);
    VisitedIgnoresParent(Spawn(prefab), p, e, meshes, maxMeshIndex, nKnown);
    var v := Visited(o[n], e, meshes, maxMeshIndex, nKnown).value;
    var o' := o[n := v];
    var children := ListedChildren(e);
    var r := Reparent(o', children, n, |entries|);
    assert Step(o, e, n, meshes, maxMeshIndex, nKnown).value == r;
    assert Links(o') == Adopted(entries, n);
    assert Lists(entries)[n] == children;
    assert Parents.AdoptAll(Links(o'), children, n, |entries|) == Adopted(entries, n + 1);
  }

  /** What the two passes of `ParseNodes` leave after hi visits. */
  lemma {:induction false} NodesAfterSpec(prefab: NodeObject, entries: seq<Entry>, hi: nat, meshes: seq<Option<MeshEntry>>, maxMeshIndex: int, nKnown: int)
    requires hi <= |entries|
    requires NodesAfter(Spawned(prefab, |entries|), entries, hi, meshes, maxMeshIndex, nKnown).Ok?
    ensures AfterVisits(prefab, entries, hi, NodesAfter(Spawned(prefab, |entries|), entries, hi, meshes, maxMeshIndex, nKnown).value,
                        meshes, maxMeshIndex, nKnown)
  {
    if hi > 0 {
      var n := hi - 1;
      NodesAfterSpec(prefab, entries, n, meshes, maxMeshIndex, nKnown);
      var o := NodesAfter(Spawned(prefab, |entries|), entries, n, meshes, maxMeshIndex, nKnown).value;
      StepKeepsAfterVisits(prefab, entries, n, o, meshes, maxMeshIndex, nKnown);
    }
  }

  /** A visit that throws ends the load: the second pass succeeds exactly
      when every visit does. */
  lemma {:induction false} NodesAfterFault(prefab: NodeObject, entries: seq<Entry>, hi: nat, meshes: seq<Option<MeshEntry>>, maxMeshIndex: int, nKnown: int)
    requires hi <= |entries|
    ensures NodesAfter(Spawned(prefab, |entries|), entries, hi, meshes, maxMeshIndex, nKnown).Fault? <==>
      exists c :: 0 <= c < hi && Visited(Spawn(prefab), entries[c], meshes, maxMeshIndex, nKnown).Fault?
  {
    if hi > 0 {
      var n := hi - 1;
      var base := Spawned(prefab, |entries|);
      NodesAfterFault(prefab, entries, n, meshes, maxMeshIndex, nKnown);
      if NodesAfter(base, entries, n, meshes, maxMeshIndex, nKnown).Ok? {
        NodesAfterSpec(prefab, entries, n, meshes, maxMeshIndex, nKnown);
        var o := NodesAfter(base, entries, n, meshes, maxMeshIndex, nKnown).value;
        assert o[n] == Spawn(prefab).(parent := Adopted(entries, n)[n]);
        VisitedIgnoresParent(Spawn(prefab), Adopted(entries, n)[n], entries[n], meshes, maxMeshIndex, nKnown);
        NodesAfterNext(base, entries, n, o, meshes, maxMeshIndex, nKnown);
      } else {
        NodesFaultPersists(base, entries, n, hi, meshes, maxMeshIndex, nKnown);
      }
    }
  }

  /** `ParseNodes` as a whole: the load of the node list fails exactly
      when one entry's visit throws; otherwise node c carries its own
      entry's mesh, name and transform, its parent is what the children
      loops of all entries left, and the nodes form a forest under the
      loader's root. */
  lemma ParsedNodesSpec(prefab: NodeObject, list: seq<Token>, meshes: seq<Option<MeshEntry>>, nKnown: int)
    ensures ParsedNodes(prefab, list, meshes, nKnown).Fault? <==>
      exists c :: 0 <= c < |list| && Visited(Spawn(prefab), Entries(list)[c], meshes, |meshes|, nKnown).Fault?
    ensures ParsedNodes(prefab, list, meshes, nKnown).Ok? ==>
      var r := ParsedNodes(prefab, list, meshes, nKnown).value;
      && |r| == |list|
      && Parents.Forest(Links(r))
      && forall c :: 0 <= c < |list| ==>
           r[c] == Visited(Spawn(prefab), Entries(list)[c], meshes, |meshes|, nKnown).value.(parent := Adopted(Entries(list), |list|)[c])
  {
    var entries := Entries(list);
    NodesAfterFault(prefab, entries, |list|, meshes, |meshes|, nKnown);
    if ParsedNodes(prefab, list, meshes, nKnown).Ok? {
      NodesAfterSpec(prefab, entries, |list|, meshes, |meshes|, nKnown);
      var r := ParsedNodes(prefab, list, meshes, nKnown).value;
      assert Links(r) == Adopted(entries, |list|);
      Parents.NoLinksForest(Parents.NoLinks(|list|));
      Parents.AdoptEachForest(Parents.NoLinks(|list|), Lists(entries), |list|);
    }
  }

  /** A document whose hierarchy follows the glTF rule (a disjoint union
      of strict trees: no node listed by two nodes, no cycle) is loaded
      with every node under the node that lists it, and the nodes no
      entry lists under the root. */
  lemma ParsedNodesTrees(prefab: NodeObject, list: seq<Token>, meshes: seq<Option<MeshEntry>>, nKnown: int)
    requires Parents.ListedOnce(Lists(Entries(list))) && Parents.Forest(Parents.Listers(Lists(Entries(list))))
    requires ParsedNodes(prefab, list, meshes, nKnown).Ok?
    ensures forall c :: 0 <= c < |list| ==>
      ParsedNodes(prefab, list, meshes, nKnown).value[c].parent == Parents.Listers(Lists(Entries(list)))[c]
  {
    ParsedNodesSpec(prefab, list, meshes, nKnown);
    Parents.AdoptEachTrees(Lists(Entries(list)), |list|);
  }

  /** A node whose mesh index equals the number of meshes ends the load. */
  lemma MeshIndexPastTheEndThrows(prefab: NodeObject)
    ensures ParsedNodes(prefab, [Dict(map["mesh" := Number(0.0)])], [], 0).Fault?
  {
    var t := Dict(map["mesh" := Number(0.0)]);
    var plain := t.fields - {"matrix"};
    assert plain == t.fields;
    assert Document.DictOptInt(plain, "mesh", -1) == 0;
    assert Entries([t])[0] == EntryOf(t);
    NodesAfterFault(prefab, Entries([t]), 1, [], 0, 0);
  }

  /** Once a visit has thrown, the later ones are never made. */
  lemma {:induction false} NodesFaultPersists(objs: seq<NodeObject>, entries: seq<Entry>, lo: nat, hi: nat, meshes: seq<Option<MeshEntry>>, maxMeshIndex: int, nKnown: int)
    requires |objs| == |entries| && lo <= hi <= |entries|
    requires NodesAfter(objs, entries, lo, meshes, maxMeshIndex, nKnown).Fault?
    ensures NodesAfter(objs, entries, hi, meshes, maxMeshIndex, nKnown).Fault?
    decreases hi - lo
  {
    if lo < hi {
      NodesFaultPersists(objs, entries, lo + 1, hi, meshes, maxMeshIndex, nKnown);
    }
  }

  /** `ParseNodes`, first pass: one prefab copy per listed node. */
  method SpawnAll(prefab: NodeObject, nNodes: nat) returns (objs: seq<NodeObject>)
    ensures objs == Spawned(prefab, nNodes)
  {
    objs := [];
    var n := 0;
    while n < nNodes
      invariant 0 <= n <= nNodes
      invariant objs == Spawned(prefab, n)
    {
      objs := objs + [Spawn(prefab)];
      n := n + 1;
    }
  }

  /** The children loop of node n: `SetParent` on every listed child in
      range, which Unity refuses for n itself and n's ancestors. */
  method ParentChildren(objs: seq<NodeObject>, children: seq<int>, n: nat) returns (r: seq<NodeObject>)
    ensures r == Reparent(objs, children, n, |objs|)
  {
    var nNodes := |objs|;
    r := objs;
    var c := 0;
    while c < |children|
      invariant 0 <= c <= |children|
      invariant r == Reparent(objs, children[..c], n, nNodes)
    {
      var childIndex := children[c];
      assert children[..c + 1] == children[..c] + [childIndex];
      if childIndex < 0 || childIndex >= nNodes {
        c := c + 1;
        continue;
      }
      assert Links(r) == Parents.AdoptAll(Links(objs), children[..c], n, nNodes);
      if Parents.Refused(Links(r), childIndex, n) {
        c := c + 1;
        continue;
      }
      r := r[childIndex := r[childIndex].(parent := Some(n))];
      c := c + 1;
    }
    assert children[..c] == children;
  }

  lemma NodesAfterNext(objs: seq<NodeObject>, entries: seq<Entry>, n: nat, o: seq<NodeObject>, meshes: seq<Option<MeshEntry>>, maxMeshIndex: int, nKnown: int)
    requires |objs| == |entries| && n < |entries|
    requires NodesAfter(objs, entries, n, meshes, maxMeshIndex, nKnown) == Ok(o)
    ensures NodesAfter(objs, entries, n + 1, meshes, maxMeshIndex, nKnown) == Step(o, entries[n], n, meshes, maxMeshIndex, nKnown)
  {
  }

  /** The body of the second loop of `ParseNodes`: the visit of node n. */
  method VisitNode(objs: seq<NodeObject>, nodeToken: Token, n: nat, meshes: seq<Option<MeshEntry>>, maxMeshIndex: int, nKnown: int,
                   ghost base: seq<NodeObject>, ghost entries: seq<Entry>)
    returns (r: Run<seq<NodeObject>>)
    requires |base| == |entries| && n < |entries| && entries[n] == EntryOf(nodeToken)
    requires NodesAfter(base, entries, n, meshes, maxMeshIndex, nKnown) == Ok(objs)
    ensures r == NodesAfter(base, entries, n + 1, meshes, maxMeshIndex, nKnown)
  {
    NodesAfterNext(base, entries, n, objs, meshes, maxMeshIndex, nKnown);
    if !nodeToken.Dict? {
      assert Reparent(objs, [], n, |objs|) == objs;
      assert objs[n := objs[n]] == objs;
      return Ok(objs);
    }
    var info := ParseNode(nodeToken.fields);
    if info.Fault? {
      return Fault;
    }
    var node := SetupMesh(objs[n], meshes, info.value.mesh, maxMeshIndex, nKnown);
    if node.Fault? {
      return Fault;
    }
    var named := node.value.(name := info.value.name, position := info.value.position,
                             rotation := info.value.rotation, scale := info.value.scale);
    assert EntryOf(nodeToken) == Parsed(info.value);
    var parented := ParentChildren(objs[n := named], info.value.children, n);
    return Ok(parented);
  }

  /** `ParseNodes`: spawn one node per entry, then visit the entries in
      order, skipping any that is not a dictionary. */
  method SpawnAndVisit(prefab: NodeObject, nodes: seq<Token>, meshes: seq<Option<MeshEntry>>, nKnown: int)
    returns (r: Run<seq<NodeObject>>)
    ensures r == ParsedNodes(prefab, nodes, meshes, nKnown)
  {
    var nNodes := |nodes|;
    var maxMeshIndex := |meshes|;
    ghost var base := Spawned(prefab, nNodes);
    ghost var entries := Entries(nodes);
    var nodesObjects := SpawnAll(prefab, nNodes);
    var n := 0;
    while n < nNodes
      invariant 0 <= n <= nNodes
      invariant NodesAfter(base, entries, n, meshes, maxMeshIndex, nKnown) == Ok(nodesObjects)
    {
      assert entries[n] == EntryOf(nodes[n]);
      var visited := VisitNode(nodesObjects, nodes[n], n, meshes, maxMeshIndex, nKnown, base, entries);
      if visited.Fault? {
        NodesFaultPersists(base, entries, n + 1, nNodes, meshes, maxMeshIndex, nKnown);
        return Fault;
      }
      nodesObjects := visited.value;
      n := n + 1;
    }
    return Ok(nodesObjects);
  }

  /** The batch of nodes a load spawns, appended after the nodes already
      under the root: parent indices move by the number of those. */
  function Shifted(batch: seq<NodeObject>, base: nat): (r: seq<NodeObject>)
    ensures |r| == |batch|
    ensures forall i :: 0 <= i < |batch| ==> r[i].(parent := batch[i].parent) == batch[i]
    ensures forall i :: 0 <= i < |batch| ==> (r[i].parent.Some? <==> batch[i].parent.Some?)
    ensures forall i :: 0 <= i < |batch| && batch[i].parent.Some? ==> r[i].parent.value == batch[i].parent.value + base
  {
    seq(|batch|, i requires 0 <= i < |batch| =>
      batch[i].(parent := if batch[i].parent.Some? then Some(batch[i].parent.value + base) else None))
  }

  /** Shifting by nothing changes nothing. */
  lemma ShiftedByZero(batch: seq<NodeObject>)
    ensures Shifted(batch, 0) == batch
  {
    forall i | 0 <= i < |batch|
      ensures Shifted(batch, 0)[i] == batch[i]
    {
    }
  }

  // ---------------------------------------------------------------------
  // Images.

  const VOYAGE_EXTENSION: string := "EXT_voyage_exporter"
  const BGRA32: string := "BGRA32"
  const IMAGE_FIELDS: seq<Document.Field> := [
    Document.Field("bufferView", TDouble),
    Document.Field("extensions", TDataDictionary)
  ]

  /** The pixels an image entry hands to its texture, with the texture's
      size; the texture is always BGRA32. */
  datatype Image = Image(width: int, height: int, pixels: seq<byte>)

  /** The exporter's extension of an image entry, when "extensions" is a
      dictionary holding one. */
  function VoyageExtension(info: Dictionary): Option<Dictionary>
  {
    var extensions := Get(info, "extensions");
    if extensions.Dict? && TryGetValue(extensions.fields, VOYAGE_EXTENSION, TDataDictionary).Some? then
      Some(extensions.fields[VOYAGE_EXTENSION].fields)
    else None
  }

  /** A raw span whose bytes lie inside the file. */
  predicate SpanFits(view: View, glb: seq<byte>)
    requires view.Span?
  {
    0 <= view.offset && 0 <= view.nBytes && view.offset + view.nBytes <= |glb|
  }

  /** The specification of `ParseImage`.  As the field check looks only at
      its first pair, an image with a numeric "bufferView" whose
      "extensions" is not a dictionary throws.  An image is refused
      (null) without the exporter's extension, when its width is -1 or its
      height is 1, when its format is missing or is not BGRA32, or when
      its view index names no raw span; a raw span that does not fit the
      file throws, and so does creating the texture when Unity refuses its
      size or the span is too short for its BGRA32 pixels. */
  function ImageOf(views: seq<View>, info: Dictionary, glb: seq<byte>): (r: Run<Option<Image>>)
    ensures !Document.FieldOk(info, IMAGE_FIELDS[0]) ==> r == Ok(None)
    ensures Document.FieldOk(info, IMAGE_FIELDS[0]) && !Get(info, "extensions").Dict? ==> r.Fault?
    ensures Document.FieldOk(info, IMAGE_FIELDS[0]) && Get(info, "extensions").Dict? && VoyageExtension(info).None? ==> r == Ok(None)
    ensures r.Fault? ==>
      && Document.FieldOk(info, IMAGE_FIELDS[0])
      && (!Get(info, "extensions").Dict?
          || (&& VoyageExtension(info).Some?
              && 0 <= ViewIndex(info) < |views| && views[ViewIndex(info)].Span?
              && var ext := VoyageExtension(info).value;
                 (|| !SpanFits(views[ViewIndex(info)], glb)
                  || !Textures.Loads(Textures.Pixels32, Document.DictOptInt(ext, "width", -1), Document.DictOptInt(ext, "height", -1),
                                     false, views[ViewIndex(info)].nBytes))))
    ensures r.Ok? && r.value.Some? ==>
      && Document.FieldOk(info, IMAGE_FIELDS[0])
      && VoyageExtension(info).Some?
      && var ext := VoyageExtension(info).value;
      && r.value.value.width == Document.DictOptInt(ext, "width", -1) != -1
      && r.value.value.height == Document.DictOptInt(ext, "height", -1) != 1
      && Document.DictOptString(ext, "format", "") == BGRA32
      && 0 <= ViewIndex(info) < |views| && views[ViewIndex(info)].Span?
      && SpanFits(views[ViewIndex(info)], glb)
      && Textures.Loads(Textures.Pixels32, r.value.value.width, r.value.value.height, false, |r.value.value.pixels|)
      && r.value.value.pixels == glb[views[ViewIndex(info)].offset .. views[ViewIndex(info)].offset + views[ViewIndex(info)].nBytes]
    ensures (&& Document.FieldOk(info, IMAGE_FIELDS[0]) && VoyageExtension(info).Some?
             && var ext := VoyageExtension(info).value;
                && Document.DictOptInt(ext, "width", -1) != -1 && Document.DictOptInt(ext, "height", -1) != 1
                && Document.DictOptString(ext, "format", "") == BGRA32
                && 0 <= ViewIndex(info) < |views| && views[ViewIndex(info)].Span?)
            ==> (r.Fault? <==>
                   || !SpanFits(views[ViewIndex(info)], glb)
                   || !Textures.Loads(Textures.Pixels32, Document.DictOptInt(VoyageExtension(info).value, "width", -1),
                                      Document.DictOptInt(VoyageExtension(info).value, "height", -1), false, views[ViewIndex(info)].nBytes))
  {
    if !CheckedFieldsOk(info, IMAGE_FIELDS) then
      FirstPairOnly(info, IMAGE_FIELDS);
      Ok(None)
    else
      FirstPairOnly(info, IMAGE_FIELDS);
      if !Get(info, "extensions").Dict? then Fault
      else
        match VoyageExtension(info)
        case None => Ok(None)
        case Some(ext) =>
          var width := Document.DictOptInt(ext, "width", -1);
          var height := Document.DictOptInt(ext, "height", -1);
          var formatInfo := Document.DictOptString(ext, "format", "");
          if width == -1 || height == 1 || formatInfo == "" then Ok(None)
          else if formatInfo != BGRA32 then Ok(None)
          else
            var bufferViewIndex := ViewIndex(info);
            if bufferViewIndex < 0 || bufferViewIndex >= |views| then Ok(None)
            else
              match views[bufferViewIndex]
              case Span(offset, size) =>
                if size < 0 || offset < 0 || offset + size > |glb| then Fault
                else if !Textures.Loads(Textures.Pixels32, width, height, false, size) then Fault
                else Ok(Some(Image(width, height, glb[offset..offset + size])))
              case _ => Ok(None)
  }

  /** `ParseImage`: the checks, the copy of the pixels out of the file and
      the creation of the BGRA32 texture. */
  method ParseImage(views: seq<View>, imageInfo: Dictionary, glb: seq<byte>) returns (r: Run<Option<Image>>)
    ensures r == ImageOf(views, imageInfo, glb)
  {
    var checkFields := CheckFields(imageInfo, IMAGE_FIELDS);
    FirstPairOnly(imageInfo, IMAGE_FIELDS);
    if !checkFields {
      return Ok(None);
    }
    var extensionCast := AsDict(Get(imageInfo, "extensions"));
    if extensionCast.Fault? {
      return Fault;
    }
    var extension := extensionCast.value;
    var voyageExtensionToken := TryGetValue(extension, VOYAGE_EXTENSION, TDataDictionary);
    if voyageExtensionToken.None? {
      return Ok(None);
    }
    var voyageExtension := voyageExtensionToken.value.fields;
    var width := Document.DictOptInt(voyageExtension, "width", -1);
    var height := Document.DictOptInt(voyageExtension, "height", -1);
    var formatInfo := Document.DictOptString(voyageExtension, "format", "");
    if width == -1 || height == 1 || formatInfo == "" {
      return Ok(None);
    }
    if formatInfo != BGRA32 {
      return Ok(None);
    }
    var bufferViewIndex := Int32.DoubleToInt(imageInfo["bufferView"].n);
    if bufferViewIndex < 0 || bufferViewIndex >= |views| {
      return Ok(None);
    }
    var bufferView := views[bufferViewIndex];
    if !bufferView.Span? {
      return Ok(None);
    }
    var offset := bufferView.offset;
    var size := bufferView.nBytes;
    if size < 0 {
      return Fault;
    }
    if offset < 0 || offset + size > |glb| {
      return Fault;
    }
    if !Textures.Loads(Textures.Pixels32, width, height, false, size) {
      return Fault;
    }
    return Ok(Some(Image(width, height, glb[offset..offset + size])));
  }

  function ImageSlot(views: seq<View>, t: Token, glb: seq<byte>): Run<Option<Image>>
  {
    if t.Dict? then ImageOf(views, t.fields, glb) else Ok(None)
  }

  /** `ParseImages`: one texture slot per listed image, in order. */
  method ParseImages(views: seq<View>, images: seq<Token>, glb: seq<byte>) returns (r: Run<seq<Option<Image>>>)
    ensures r.Ok? <==> forall i :: 0 <= i < |images| ==> ImageSlot(views, images[i], glb).Ok?
    ensures r.Ok? ==> |r.value| == |images|
    ensures r.Ok? ==> forall i :: 0 <= i < |images| ==> r.value[i] == ImageSlot(views, images[i], glb).value
  {
    var nImages := |images|;
    var textures := new Option<Image>[nImages](_ => None);
    var i := 0;
    while i < nImages
      invariant 0 <= i <= nImages
      invariant forall j :: 0 <= j < i ==> ImageSlot(views, images[j], glb).Ok?
      invariant forall j :: 0 <= j < i ==> textures[j] == ImageSlot(views, images[j], glb).value
      invariant forall j :: i <= j < nImages ==> textures[j] == None
    {
      var imageInfoToken := images[i];
      if !imageInfoToken.Dict? {
        i := i + 1;
        continue;
      }
      var texture := ParseImage(views, imageInfoToken.fields, glb);
      if texture.Fault? {
        return Fault;
      }
      textures[i] := texture.value;
      i := i + 1;
    }
    return Ok(textures[..]);
  }

  // ---------------------------------------------------------------------
  // The loader.

  /** The root entry passes the loader's field check. */
  predicate RootAccepted(t: Token)
  {
    t.Dict? && CheckedFieldsOk(t.fields, ROOT_FIELDS)
  }

  predicate ViewsLoaded(views: seq<View>, list: seq<Token>, glb: seq<byte>, dataOffset: int)
  {
    |views| == |list| && forall v :: 0 <= v < |list| ==> ViewOf(list[v], glb, dataOffset) == Ok(views[v])
  }

  predicate AccessorsLoaded(accessors: seq<Option<Accessor>>, views: seq<View>, list: seq<Token>)
  {
    |accessors| == |list| && forall i :: 0 <= i < |list| ==> AccessorSlot(views, list[i]) == Ok(accessors[i])
  }

  predicate ImagesLoaded(images: seq<Option<Image>>, views: seq<View>, list: seq<Token>, glb: seq<byte>)
  {
    |images| == |list| && forall i :: 0 <= i < |list| ==> ImageSlot(views, list[i], glb) == Ok(images[i])
  }

  predicate MaterialsLoaded(materials: seq<Option<Dictionary>>, list: seq<Token>)
  {
    |materials| == |list| && forall m :: 0 <= m < |list| ==> MaterialSlot(list[m]) == Ok(materials[m])
  }

  predicate MeshesLoaded(meshes: seq<Option<MeshEntry>>, accessors: seq<Option<Accessor>>, list: seq<Token>)
  {
    |meshes| == |list| && forall m :: 0 <= m < |list| ==> MeshSlot(accessors, list[m]) == Ok(meshes[m])
  }

  /** The loader behaviour of the first version: the arrays it keeps
      between the stages of a load and the nodes spawned under its root
      transform.  The JSON parser is a parameter. */
  class LegacyGLBLoader {
    var bufferViews: seq<View>
    var accessors: seq<Option<Accessor>>
    var materials: seq<Option<Dictionary>>
    var meshesInfo: seq<Option<MeshEntry>>
    var images: seq<Option<Image>>
    /** The nodes under the root transform, in spawn order; a parent index
        points into this sequence. */
    var nodes: seq<NodeObject>
    const nodePrefab: NodeObject
    const decode: seq<byte> -> Token

    constructor(nodePrefab: NodeObject, decode: seq<byte> -> Token)
      ensures this.nodePrefab == nodePrefab && this.decode == decode
      ensures bufferViews == [] && accessors == [] && materials == [] && images == []
      ensures meshesInfo == [] && nodes == []
    {
      this.nodePrefab := nodePrefab;
      this.decode := decode;
      bufferViews := [];
      accessors := [];
      materials := [];
      meshesInfo := [];
      images := [];
      nodes := [];
    }

    /** `Clear`: empties the stage arrays and destroys every node under the
        root; the meshes of the previous load are kept. */
    method Clear()
      modifies this
      ensures bufferViews == [] && accessors == [] && materials == [] && images == [] && nodes == []
      ensures meshesInfo == old(meshesInfo)
    {
      bufferViews := [];
      accessors := [];
      materials := [];
      images := [];
      nodes := [];
    }

    /** `ParseAndShowMeshes`: one mesh slot per listed mesh, null for an
        entry that is not a dictionary or is refused. */
    method ParseAndShowMeshes(meshesList: seq<Token>) returns (completed: bool)
      modifies this
      ensures completed <==> forall m :: 0 <= m < |meshesList| ==> MeshSlot(accessors, meshesList[m]).Ok?
      ensures completed ==> MeshesLoaded(meshesInfo, accessors, meshesList)
      ensures bufferViews == old(bufferViews) && accessors == old(accessors) && materials == old(materials)
      ensures images == old(images) && nodes == old(nodes)
    {
      var nMeshes := |meshesList|;
      var loaded := new Option<MeshEntry>[nMeshes](_ => None);
      var m := 0;
      while m < nMeshes
        invariant 0 <= m <= nMeshes
        invariant forall j :: 0 <= j < m ==> MeshSlot(accessors, meshesList[j]) == Ok(loaded[j])
        invariant forall j :: m <= j < nMeshes ==> loaded[j] == None
        invariant unchanged(this)
      {
        var meshInfoToken := meshesList[m];
        if !meshInfoToken.Dict? {
          m := m + 1;
          continue;
        }
        var mesh := LoadMesh(accessors, meshInfoToken.fields);
        if mesh.Fault? {
          return false;
        }
        loaded[m] := mesh.value;
        m := m + 1;
      }
      meshesInfo := loaded[..];
      return true;
    }

    /** `ParseNodes`: spawns the listed nodes under the root, after the
        nodes already there. */
    method ParseNodes(nodesList: seq<Token>) returns (completed: bool)
      modifies this
      ensures completed <==> ParsedNodes(nodePrefab, nodesList, meshesInfo, |materials|).Ok?
      ensures completed ==> nodes == old(nodes) + Shifted(ParsedNodes(nodePrefab, nodesList, meshesInfo, |materials|).value, |old(nodes)|)
      ensures bufferViews == old(bufferViews) && accessors == old(accessors) && materials == old(materials)
      ensures images == old(images) && meshesInfo == old(meshesInfo)
    {
      var batch := SpawnAndVisit(nodePrefab, nodesList, meshesInfo, |materials|);
      if batch.Fault? {
        return false;
      }
      nodes := nodes + Shifted(batch.value, |nodes|);
      return true;
    }

    /** The stages of `ParseGLB` before the meshes: buffer views,
        accessors, the images when the file lists some, and materials. */
    method LoadArrays(glb: seq<byte>, root: Dictionary, dataStart: nat) returns (completed: bool)
      requires Get(root, "bufferViews").List?
      modifies this
      ensures completed ==>
        && Get(root, "accessors").List? && Get(root, "materials").List?
        && ViewsLoaded(bufferViews, Get(root, "bufferViews").items, glb, dataStart)
        && AccessorsLoaded(accessors, bufferViews, Get(root, "accessors").items)
        && (Get(root, "images").List? ==> ImagesLoaded(images, bufferViews, Get(root, "images").items, glb))
        && (!Get(root, "images").List? ==> images == old(images))
        && MaterialsLoaded(materials, Get(root, "materials").items)
      ensures meshesInfo == old(meshesInfo) && nodes == old(nodes)
    {
      var views := ParseBufferViews(Get(root, "bufferViews").items, glb, dataStart);
      if views.Fault? {
        return false;
      }
      bufferViews := views.value;
      var accessorsList := AsList(Get(root, "accessors"));
      if accessorsList.Fault? {
        return false;
      }
      var parsedAccessors := ParseAccessors(bufferViews, accessorsList.value);
      if parsedAccessors.Fault? {
        return false;
      }
      accessors := parsedAccessors.value;
      var imagesToken := TryGetValue(root, "images", TDataList);
      if imagesToken.Some? {
        var parsedImages := ParseImages(bufferViews, imagesToken.value.items, glb);
        if parsedImages.Fault? {
          return false;
        }
        images := parsedImages.value;
      }
      var materialsList := AsList(Get(root, "materials"));
      if materialsList.Fault? {
        return false;
      }
      var parsedMaterials := ParseMaterials(materialsList.value);
      if parsedMaterials.Fault? {
        return false;
      }
      materials := parsedMaterials.value;
      return true;
    }

    /** `ParseGLB`.  Ok(false): the file was refused with an error report
        (a bad header, a JSON chunk that is not an object, or a root that
        fails the field check), and nothing changed.  Ok(true): every stage
        ran, and each array holds what its stage computes from the stage
        before.  Fault: a stage threw. */
    method ParseGLB(glb: seq<byte>) returns (r: Run<bool>)
      modifies this
      ensures Container.ParseMainData(glb).Fault? ==> r.Fault?
      ensures Container.ParseMainData(glb) == Ok(Container.Rejected) ==> r == Ok(false)
      ensures (Container.ParseMainData(glb).Ok? && Container.ParseMainData(glb).value.Accepted?
               && !RootAccepted(decode(Container.ParseMainData(glb).value.json))) ==> r == Ok(false)
      ensures r == Ok(false) ==> unchanged(this)
      ensures r == Ok(true) ==>
        && Container.ParseMainData(glb).Ok? && Container.ParseMainData(glb).value.Accepted?
        && RootAccepted(decode(Container.ParseMainData(glb).value.json))
      ensures r == Ok(true) ==>
        var layout := Container.ParseMainData(glb).value;
        var root := decode(layout.json).fields;
        && Get(root, "bufferViews").List? && Get(root, "meshes").List? && Get(root, "nodes").List?
        && Get(root, "accessors").List? && Get(root, "materials").List?
        && ViewsLoaded(bufferViews, Get(root, "bufferViews").items, glb, layout.dataStart)
        && AccessorsLoaded(accessors, bufferViews, Get(root, "accessors").items)
        && (Get(root, "images").List? ==> ImagesLoaded(images, bufferViews, Get(root, "images").items, glb))
        && (!Get(root, "images").List? ==> images == old(images))
        && MaterialsLoaded(materials, Get(root, "materials").items)
        && MeshesLoaded(meshesInfo, accessors, Get(root, "meshes").items)
        && ParsedNodes(nodePrefab, Get(root, "nodes").items, meshesInfo, |materials|).Ok?
        && nodes == old(nodes) + Shifted(ParsedNodes(nodePrefab, Get(root, "nodes").items, meshesInfo, |materials|).value, |old(nodes)|)
    {
      var header := WalkHeader(glb);
      if header.Fault? {
        return Fault;
      }
      if header.value.Rejected? {
        return Ok(false);
      }
      var result := decode(header.value.json);
      if !result.Dict? {
        return Ok(false);
      }
      var glbJsonRoot := result.fields;
      var check := CheckFields(glbJsonRoot, ROOT_FIELDS);
      if !check {
        return Ok(false);
      }
      RootCheckSpec(glbJsonRoot);
      var arraysDone := LoadArrays(glb, glbJsonRoot, header.value.dataStart);
      if !arraysDone {
        return Fault;
      }
      var meshesDone := ParseAndShowMeshes(Get(glbJsonRoot, "meshes").items);
      if !meshesDone {
        return Fault;
      }
      var nodesDone := ParseNodes(Get(glbJsonRoot, "nodes").items);
      if !nodesDone {
        return Fault;
      }
      return Ok(true);
    }

    /** `OnStringLoadSuccess`: a fresh load of the downloaded bytes; after a
        complete load the nodes under the root are exactly the file's. */
    method OnStringLoadSuccess(resultBytes: seq<byte>) returns (r: Run<bool>)
      modifies this
      ensures r == Ok(true) ==>
        && Container.ParseMainData(resultBytes).Ok? && Container.ParseMainData(resultBytes).value.Accepted?
        && RootAccepted(decode(Container.ParseMainData(resultBytes).value.json))
        && var root := decode(Container.ParseMainData(resultBytes).value.json).fields;
        && Get(root, "nodes").List?
        && ParsedNodes(nodePrefab, Get(root, "nodes").items, meshesInfo, |materials|).Ok?
        && nodes == ParsedNodes(nodePrefab, Get(root, "nodes").items, meshesInfo, |materials|).value
      ensures r == Ok(false) ==> bufferViews == [] && accessors == [] && materials == [] && images == [] && nodes == []
      ensures r == Ok(false) ==> meshesInfo == old(meshesInfo)
    {
      Clear();
      r := ParseGLB(resultBytes);
      if r == Ok(true) {
        ghost var root := decode(Container.ParseMainData(resultBytes).value.json).fields;
        ShiftedByZero(ParsedNodes(nodePrefab, Get(root, "nodes").items, meshesInfo, |materials|).value);
      }
    }
  }
}
