/** Record extraction from the decoded glTF JSON document: optional
    fields with defaults, field checks, and the buffer-view, accessor,
    primitive, mesh and node records the loader builds from it. */
module Document {
  import opened Wrappers
  import opened Json
  import Int32

  /** Engine vectors built from JSON numbers.  The narrowing of a double
      to a single-precision float is not represented: components stay
      exact reals. */
  datatype Vector3 = Vector3(x: real, y: real, z: real)
  datatype Quaternion = Quaternion(x: real, y: real, z: real, w: real)
  /** A `Matrix4x4`: the sixteen entries in the order of the matrix's
      integer indexer (column after column). */
  datatype Matrix4x4 = Matrix4x4(entries: seq<real>)

  const Zero: Vector3 := Vector3(0.0, 0.0, 0.0)
  const One: Vector3 := Vector3(1.0, 1.0, 1.0)
  const IdentityRotation: Quaternion := Quaternion(0.0, 0.0, 0.0, 1.0)
  const IdentityMatrix: Matrix4x4 :=
    Matrix4x4([1.0, 0.0, 0.0, 0.0, 0.0, 1.0, 0.0, 0.0, 0.0, 0.0, 1.0, 0.0, 0.0, 0.0, 0.0, 1.0])

  // ---------------------------------------------------------------------
  // Optional fields.

  /** `DictOptString`: the stored string when the key holds a string. */
  function DictOptString(dict: Dictionary, fieldName: string, defaultValue: string): (r: string)
    ensures fieldName in dict && dict[fieldName].Str? ==> r == dict[fieldName].s
    ensures !(fieldName in dict && dict[fieldName].Str?) ==> r == defaultValue
  {
    match TryGetValue(dict, fieldName, TString)
    case Some(t) => t.s
    case None => defaultValue
  }

  /** `DictOptInt`: the stored number, cast to `int`, when the key holds a
      number. */
  function DictOptInt(dict: Dictionary, fieldName: string, defaultValue: int): (r: int)
    ensures fieldName in dict && dict[fieldName].Number? ==> r == Int32.DoubleToInt(dict[fieldName].n)
    ensures !(fieldName in dict && dict[fieldName].Number?) ==> r == defaultValue
  {
    match TryGetValue(dict, fieldName, TDouble)
    case Some(t) => Int32.DoubleToInt(t.n)
    case None => defaultValue
  }

  /** `DictOptFloat`: the stored number when the key holds a number. */
  function DictOptFloat(dict: Dictionary, fieldName: string, defaultValue: real): (r: real)
    ensures fieldName in dict && dict[fieldName].Number? ==> r == dict[fieldName].n
    ensures !(fieldName in dict && dict[fieldName].Number?) ==> r == defaultValue
  {
    match TryGetValue(dict, fieldName, TDouble)
    case Some(t) => t.n
    case None => defaultValue
  }

  /** `IsListComponentType` as written: the accumulator starts at `true`
      and is combined with `|=`, so the answer is `true` for every list. */
  method IsListComponentType(list: seq<Token>, ty: TokenType) returns (allOk: bool)
    ensures allOk
  {
    allOk := true;
    var nElements := |list|;
    var e := 0;
    while e < nElements
      invariant 0 <= e <= nElements
      invariant allOk
    {
      var isType := TypeOf(list[e]) == ty;
      allOk := allOk || isType;
      e := e + 1;
    }
  }

  /** The cast `(double)list[i]` of an element that must be a number. */
  function ElementAsDouble(list: seq<Token>, i: nat): (r: Run<real>)
    requires i < |list|
    ensures r.Ok? <==> list[i].Number?
  {
    AsDouble(list[i])
  }

  predicate AllNumbers(list: seq<Token>, n: nat)
    requires n <= |list|
  {
    forall i :: 0 <= i < n ==> list[i].Number?
  }

  /** `DataListToVector3`: the first three elements as a vector; an
      element that is not a number makes the cast throw. */
  function DataListToVector3(list: seq<Token>): (r: Run<Vector3>)
    requires |list| >= 3
    ensures r.Ok? <==> AllNumbers(list, 3)
    ensures r.Ok? ==> r.value == Vector3(list[0].n, list[1].n, list[2].n)
  {
    if AllNumbers(list, 3) then Ok(Vector3(list[0].n, list[1].n, list[2].n)) else Fault
  }

  function DataListToQuaternion(list: seq<Token>): (r: Run<Quaternion>)
    requires |list| >= 4
    ensures r.Ok? <==> AllNumbers(list, 4)
    ensures r.Ok? ==> r.value == Quaternion(list[0].n, list[1].n, list[2].n, list[3].n)
  {
    if AllNumbers(list, 4) then Ok(Quaternion(list[0].n, list[1].n, list[2].n, list[3].n)) else Fault
  }

  function DataListToMatrix4x4(list: seq<Token>): (r: Run<Matrix4x4>)
    requires |list| >= 16
    ensures r.Ok? <==> AllNumbers(list, 16)
    ensures r.Ok? ==> |r.value.entries| == 16 && forall i :: 0 <= i < 16 ==> r.value.entries[i] == list[i].n
  {
    if AllNumbers(list, 16) then Ok(Matrix4x4(seq(16, i requires 0 <= i < 16 => list[i].n))) else Fault
  }

  /** `DictOptVector3`: a list of at least three elements is converted
      (the element-type check always passes); otherwise the default. */
  function DictOptVector3(dict: Dictionary, fieldName: string, defaultValue: Vector3): (r: Run<Vector3>)
  {
    match TryGetValue(dict, fieldName, TDataList)
    case Some(t) => if |t.items| >= 3 then DataListToVector3(t.items) else Ok(defaultValue)
    case None => Ok(defaultValue)
  }

  function DictOptQuaternion(dict: Dictionary, fieldName: string, defaultValue: Quaternion): (r: Run<Quaternion>)
  {
    match TryGetValue(dict, fieldName, TDataList)
    case Some(t) => if |t.items| >= 4 then DataListToQuaternion(t.items) else Ok(defaultValue)
    case None => Ok(defaultValue)
  }

  function DictOptMatrix4x4(dict: Dictionary, fieldName: string, defaultValue: Matrix4x4): (r: Run<Matrix4x4>)
  {
    match TryGetValue(dict, fieldName, TDataList)
    case Some(t) => if |t.items| >= 16 then DataListToMatrix4x4(t.items) else Ok(defaultValue)
    case None => Ok(defaultValue)
  }

  /** The list-valued lookups: the default unless the key holds a list of
      at least the arity; such a list is converted when its leading
      elements are numbers, and throws otherwise, because the element
      type check never rejects. */
  lemma DictOptVectorsSpec(dict: Dictionary, key: string, d3: Vector3, dq: Quaternion, dm: Matrix4x4)
    ensures !(key in dict && dict[key].List? && |dict[key].items| >= 3) ==> DictOptVector3(dict, key, d3) == Ok(d3)
    ensures key in dict && dict[key].List? && |dict[key].items| >= 3 ==>
      var l := dict[key].items;
      DictOptVector3(dict, key, d3) == if AllNumbers(l, 3) then Ok(Vector3(l[0].n, l[1].n, l[2].n)) else Fault
    ensures !(key in dict && dict[key].List? && |dict[key].items| >= 4) ==> DictOptQuaternion(dict, key, dq) == Ok(dq)
    ensures key in dict && dict[key].List? && |dict[key].items| >= 4 ==>
      var l := dict[key].items;
      DictOptQuaternion(dict, key, dq) == if AllNumbers(l, 4) then Ok(Quaternion(l[0].n, l[1].n, l[2].n, l[3].n)) else Fault
    ensures !(key in dict && dict[key].List? && |dict[key].items| >= 16) ==> DictOptMatrix4x4(dict, key, dm) == Ok(dm)
    ensures key in dict && dict[key].List? && |dict[key].items| >= 16 ==>
      (DictOptMatrix4x4(dict, key, dm).Ok? <==> AllNumbers(dict[key].items, 16))
  {
  }

  /** The consequence of the always-true element check: a three-element
      list of strings is accepted as a vector and its conversion throws. */
  lemma DictOptVector3RejectsNothing()
    ensures DictOptVector3(map["v" := List([Str("a"), Str("b"), Str("c")])], "v", Zero) == Fault
  {
    var l := [Str("a"), Str("b"), Str("c")];
    assert !l[0].Number?;
  }

  // ---------------------------------------------------------------------
  // Field checks.

  /** One (name, type) pair of a `CheckFields` call. */
  datatype Field = Field(name: string, ty: TokenType)

  predicate FieldOk(dict: Dictionary, f: Field)
  {
    f.name in dict && TypeOf(dict[f.name]) == f.ty
  }

  /** Every listed field is present with the listed type. */
  predicate FieldsOk(dict: Dictionary, fields: seq<Field>)
  {
    forall i :: 0 <= i < |fields| ==> FieldOk(dict, fields[i])
  }

  /** `CheckFields`: walks the (name, type) pairs and `&=`s together
      whether each key is present with that token type. */
  method CheckFields(dict: Dictionary, fields: seq<Field>) returns (allFieldsAreOk: bool)
    ensures allFieldsAreOk <==> FieldsOk(dict, fields)
  {
    allFieldsAreOk := true;
    var nPairs := |fields|;
    var i := 0;
    while i < nPairs
      invariant 0 <= i <= nPairs
      invariant allFieldsAreOk <==> forall j :: 0 <= j < i ==> FieldOk(dict, fields[j])
    {
      var key := fields[i].name;
      var fieldIsOk := key in dict && TypeOf(Get(dict, key)) == fields[i].ty;
      allFieldsAreOk := allFieldsAreOk && fieldIsOk;
      i := i + 1;
    }
  }

  // ---------------------------------------------------------------------
  // Buffer views, accessors, primitives and meshes.

  /** The five integers kept per buffer view. */
  datatype BufferViewInfo = BufferViewInfo(buffer: int, byteOffset: int, byteLength: int, byteStride: int, target: int)

  /** `GetBufferViewInfo`: every field defaults to 0. */
  function GetBufferViewInfo(view: Dictionary): (r: BufferViewInfo)
    ensures r.byteOffset == DictOptInt(view, "byteOffset", 0)
    ensures r.byteLength == DictOptInt(view, "byteLength", 0)
    ensures r.byteStride == DictOptInt(view, "byteStride", 0)
    ensures !("byteStride" in view && view["byteStride"].Number?) ==> r.byteStride == 0
  {
    BufferViewInfo(
      DictOptInt(view, "buffer", 0),
      DictOptInt(view, "byteOffset", 0),
      DictOptInt(view, "byteLength", 0),
      DictOptInt(view, "byteStride", 0),
      DictOptInt(view, "target", 0))
  }

  /** The description fields of an accessor record. */
  datatype AccessorInfo = AccessorInfo(bufferView: int, byteOffset: int, count: int, componentType: int, accessorType: string)

  const UnknownType: string := "_UNKNOWN_"

  /** `ParseAccessor`: bufferView defaults to -1 (no view), offset, count
      and component type to 0 and the type to `_UNKNOWN_`. */
  function ParseAccessor(accessor: Dictionary): (r: AccessorInfo)
    ensures !("bufferView" in accessor && accessor["bufferView"].Number?) ==> r.bufferView == -1
    ensures "bufferView" in accessor && accessor["bufferView"].Number? ==>
      r.bufferView == Int32.DoubleToInt(accessor["bufferView"].n)
    ensures !("componentType" in accessor && accessor["componentType"].Number?) ==> r.componentType == 0
    ensures "componentType" in accessor && accessor["componentType"].Number? ==>
      r.componentType == Int32.DoubleToInt(accessor["componentType"].n)
    ensures !("type" in accessor && accessor["type"].Str?) ==> r.accessorType == UnknownType
    ensures "type" in accessor && accessor["type"].Str? ==> r.accessorType == accessor["type"].s
    ensures r.count == DictOptInt(accessor, "count", 0) && r.byteOffset == DictOptInt(accessor, "byteOffset", 0)
  {
    AccessorInfo(
      DictOptInt(accessor, "bufferView", -1),
      DictOptInt(accessor, "byteOffset", 0),
      DictOptInt(accessor, "count", 0),
      DictOptInt(accessor, "componentType", 0),
      DictOptString(accessor, "type", UnknownType))
  }

  /** The accessor indices of one primitive and its material index. */
  datatype Submesh = Submesh(positions: int, normals: int, uvs: int, indices: int, material: int)

  /** `GetSubmeshInfo`: a primitive needs an "attributes" dictionary with a
      numeric POSITION and a numeric "indices"; normals, UVs and the
      material are optional with -1 as "none". */
  function GetSubmeshInfo(primitive: Dictionary): (r: Option<Submesh>)
    ensures r.Some? <==>
      && "attributes" in primitive && primitive["attributes"].Dict?
      && "indices" in primitive && primitive["indices"].Number?
      && "POSITION" in primitive["attributes"].fields && primitive["attributes"].fields["POSITION"].Number?
    ensures r.Some? ==>
      var attributes := primitive["attributes"].fields;
      && r.value.positions == Int32.DoubleToInt(attributes["POSITION"].n)
      && r.value.indices == Int32.DoubleToInt(primitive["indices"].n)
      && r.value.normals == DictOptInt(attributes, "NORMAL", -1)
      && r.value.uvs == DictOptInt(attributes, "TEXCOORD_0", -1)
      && r.value.material == DictOptInt(primitive, "material", -1)
  {
    if !(FieldOk(primitive, Field("attributes", TDataDictionary)) && FieldOk(primitive, Field("indices", TDouble))) then None
    else
      var attributes := primitive["attributes"].fields;
      if !FieldOk(attributes, Field("POSITION", TDouble)) then None
      else
        Some(Submesh(
          Int32.DoubleToInt(attributes["POSITION"].n),
          DictOptInt(attributes, "NORMAL", -1),
          DictOptInt(attributes, "TEXCOORD_0", -1),
          Int32.DoubleToInt(primitive["indices"].n),
          DictOptInt(primitive, "material", -1)))
  }

  function SubmeshOf(t: Token): Option<Submesh>
  {
    if t.Dict? then GetSubmeshInfo(t.fields) else None
  }

  /** What `GetSubmeshInfo` makes of each primitive. */
  function Classified(primitives: seq<Token>): (r: seq<Option<Submesh>>)
    ensures |r| == |primitives|
  {
    seq(|primitives|, m requires 0 <= m < |primitives| => SubmeshOf(primitives[m]))
  }

  /** The submeshes among the classified primitives, in order. */
  function Usable(cls: seq<Option<Submesh>>): (r: seq<Submesh>)
    ensures |r| <= |cls|
  {
    if cls == [] then []
    else
      var init := Usable(cls[..|cls| - 1]);
      match cls[|cls| - 1]
      case Some(s) => init + [s]
      case None => init
  }

  /** The primitives that yield a submesh, in order. */
  function ValidSubmeshes(primitives: seq<Token>): (r: seq<Submesh>)
    ensures |r| <= |primitives|
  {
    Usable(Classified(primitives))
  }

  function Quad(s: Submesh): seq<int>
  {
    [s.positions, s.normals, s.uvs, s.indices]
  }

  /** The accessor quadruples of the submeshes, one after the other. */
  function Views(subs: seq<Submesh>): (r: seq<int>)
    ensures |r| == 4 * |subs|
  {
    if subs == [] then [] else Views(subs[..|subs| - 1]) + Quad(subs[|subs| - 1])
  }

  /** The material slot of primitive m: its material index when it yields
      a submesh, 0 (the array's initial value) when it is skipped. */
  function MaterialSlot(t: Token): int
  {
    Slot(SubmeshOf(t))
  }

  function Slot(sub: Option<Submesh>): int
  {
    match sub
    case Some(s) => s.material
    case None => 0
  }

  /** The material slot of every primitive, by position. */
  function MaterialSlots(primitives: seq<Token>): (r: seq<int>)
    ensures |r| == |primitives|
    ensures forall m :: 0 <= m < |primitives| ==> r[m] == MaterialSlot(primitives[m])
  {
    seq(|primitives|, m requires 0 <= m < |primitives| => MaterialSlot(primitives[m]))
  }

  /** An array of n zeros, as `new int[n]` starts. */
  function Zeros(n: nat): (r: seq<int>)
    ensures |r| == n && forall j :: 0 <= j < n ==> r[j] == 0
  {
    seq(n, _ => 0)
  }

  /** What `GetMeshInfo` reports for a mesh. */
  datatype MeshInfo = MeshInfo(name: string, nSubmeshes: nat, views: seq<int>, materials: seq<int>)

  const AnonymousMesh: string := "_GLBLoader_AnonymousMesh"

  /** A mesh is usable when its "primitives" entry is a list. */
  predicate HasPrimitives(mesh: Dictionary)
  {
    FieldOk(mesh, Field("primitives", TDataList))
  }

  /** The specification of `GetMeshInfo`: the accessor quadruples of every
      usable primitive packed at the front (the rest of the array stays
      0), and one material slot per primitive. */
  function MeshInfoOf(mesh: Dictionary): (r: Option<MeshInfo>)
    ensures r.Some? <==> HasPrimitives(mesh)
  {
    var name := DictOptString(mesh, "name", AnonymousMesh);
    if !HasPrimitives(mesh) then None
    else
      var primitives := mesh["primitives"].items;
      var subs := ValidSubmeshes(primitives);
      Some(MeshInfo(
        name, |subs|,
        Views(subs) + Zeros(4 * (|primitives| - |subs|)),
        MaterialSlots(primitives)))
  }

  lemma {:induction false} UsableStep(cls: seq<Option<Submesh>>, m: nat)
    requires m < |cls|
    ensures Usable(cls[..m + 1]) ==
      match cls[m]
      case Some(s) => Usable(cls[..m]) + [s]
      case None => Usable(cls[..m])
  {
    assert cls[..m + 1][..m] == cls[..m];
  }

  lemma {:induction false} ViewsStep(subs: seq<Submesh>, s: Submesh)
    ensures Views(subs + [s]) == Views(subs) + Quad(s)
  {
    assert (subs + [s])[..|subs|] == subs;
  }

  lemma ZeroTail(s: seq<int>, v: nat)
    requires v <= |s|
    requires forall j :: v <= j < |s| ==> s[j] == 0
    ensures s == s[..v] + Zeros(|s| - v)
  {
  }

  /** `GetMeshInfo`: the name defaults to `_GLBLoader_AnonymousMesh`; a
      mesh without a "primitives" list fails; otherwise the primitives are
      packed by `PackPrimitives`. */
  method GetMeshInfo(mesh: Dictionary) returns (ok: bool, info: MeshInfo)
    ensures ok <==> MeshInfoOf(mesh).Some?
    ensures ok ==> info == MeshInfoOf(mesh).value
    ensures !ok ==> info == MeshInfo(DictOptString(mesh, "name", AnonymousMesh), 0, [], [])
  {
    var name := DictOptString(mesh, "name", AnonymousMesh);
    info := MeshInfo(name, 0, [], []);
    var fields := [Field("primitives", TDataList)];
    ok := CheckFields(mesh, fields);
    assert FieldsOk(mesh, fields) <==> FieldOk(mesh, fields[0]);
    if !ok { return; }
    var primitives := mesh["primitives"].items;
    var n, views, materials := PackPrimitives(primitives);
    info := MeshInfo(name, n, views, materials);
  }

  /** What the loop of `GetMeshInfo` has put in `views` after the first m
      primitives: the quadruples of the usable ones packed at the front,
      zeros after them. */
  ghost predicate PackedViews(cls: seq<Option<Submesh>>, m: nat, views: seq<int>, v: nat)
  {
    && m <= |cls|
    && |views| == 4 * |cls|
    && v == 4 * |Usable(cls[..m])|
    && v <= 4 * m
    && views[..v] == Views(Usable(cls[..m]))
    && (forall j :: v <= j < |views| ==> views[j] == 0)
  }

  /** ... and in `materials`: the slots of the first m primitives at
      their own positions, zeros after them. */
  ghost predicate PackedMaterials(cls: seq<Option<Submesh>>, m: nat, materials: seq<int>)
  {
    && m <= |cls|
    && |materials| == |cls|
    && (forall j :: 0 <= j < m ==> materials[j] == Slot(cls[j]))
    && (forall j :: m <= j < |materials| ==> materials[j] == 0)
  }

  function PutQuad(views: seq<int>, v: nat, s: Submesh): (r: seq<int>)
    requires v + 4 <= |views|
    ensures |r| == |views|
  {
    views[v + 0 := s.positions][v + 1 := s.normals][v + 2 := s.uvs][v + 3 := s.indices]
  }

  /** A skipped primitive leaves the packed views as they are. */
  lemma ViewsSkip(cls: seq<Option<Submesh>>, m: nat, views: seq<int>, v: nat)
    requires m < |cls| && cls[m].None?
    requires PackedViews(cls, m, views, v)
    ensures PackedViews(cls, m + 1, views, v)
  {
    UsableStep(cls, m);
  }

  /** A usable primitive puts its quadruple at the cursor. */
  lemma ViewsPut(cls: seq<Option<Submesh>>, m: nat, views: seq<int>, v: nat)
    requires m < |cls| && cls[m].Some?
    requires PackedViews(cls, m, views, v)
    ensures v + 4 <= |views| && PackedViews(cls, m + 1, PutQuad(views, v, cls[m].value), v + 4)
  {
    UsableStep(cls, m);
    var sub := cls[m].value;
    var views' := PutQuad(views, v, sub);
    assert views'[..v + 4] == views[..v] + Quad(sub);
    ViewsStep(Usable(cls[..m]), sub);
  }

  /** Before primitive m there is room for one more quadruple. */
  lemma PackRoom(cls: seq<Option<Submesh>>, m: nat, views: seq<int>, v: nat, materials: seq<int>)
    requires m < |cls|
    requires PackedViews(cls, m, views, v) && PackedMaterials(cls, m, materials)
    ensures v + 4 <= |views| && m < |materials|
  {
  }

  lemma MaterialsAdvance(cls: seq<Option<Submesh>>, m: nat, materials: seq<int>)
    requires m < |cls|
    requires PackedMaterials(cls, m, materials)
    ensures cls[m].None? ==> PackedMaterials(cls, m + 1, materials)
    ensures cls[m].Some? ==> PackedMaterials(cls, m + 1, materials[m := cls[m].value.material])
  {
  }

  /** One pass of the loop of `GetMeshInfo`, for primitive m: a
      dictionary that `GetSubmeshInfo` accepts stores its four accessor
      indices at cursor `v` and its material index at position m. */
  method PackPrimitive(primitives: seq<Token>, ghost cls: seq<Option<Submesh>>, m: nat, views: seq<int>, materials: seq<int>, v: nat)
    returns (views': seq<int>, materials': seq<int>, v': nat)
    requires cls == Classified(primitives) && m < |primitives|
    requires v + 4 <= |views| && m < |materials|
    ensures cls[m].None? ==> views' == views && materials' == materials && v' == v
    ensures cls[m].Some? ==>
      views' == PutQuad(views, v, cls[m].value) && materials' == materials[m := cls[m].value.material] && v' == v + 4
  {
    views', materials', v' := views, materials, v;
    var token := ListTryGetValue(primitives, m, TDataDictionary);
    if token.None? {
      return;
    }
    var sub := GetSubmeshInfo(token.value.fields);
    assert sub == cls[m];
    if sub.None? {
      return;
    }
    views' := views'[v + 0 := sub.value.positions];
    views' := views'[v + 1 := sub.value.normals];
    views' := views'[v + 2 := sub.value.uvs];
    views' := views'[v + 3 := sub.value.indices];
    materials' := materials'[m := sub.value.material];
    v' := v + 4;
  }

  /** The loop of `GetMeshInfo` over the primitives. */
  method PackPrimitives(primitives: seq<Token>) returns (actualNumberOfMeshes: nat, views: seq<int>, materialsIndices: seq<int>)
    ensures actualNumberOfMeshes == |ValidSubmeshes(primitives)|
    ensures views == Views(ValidSubmeshes(primitives)) + Zeros(4 * (|primitives| - actualNumberOfMeshes))
    ensures materialsIndices == MaterialSlots(primitives)
  {
    var nMeshes := |primitives|;
    views := Zeros(4 * nMeshes);
    materialsIndices := Zeros(nMeshes);
    var v := 0;
    var m := 0;
    ghost var cls := Classified(primitives);
    PackStart(cls);
    while m < nMeshes
      invariant 0 <= m <= nMeshes
      invariant PackedViews(cls, m, views, v) && PackedMaterials(cls, m, materialsIndices)
    {
      views, materialsIndices, v := PackNext(primitives, cls, m, views, materialsIndices, v);
      m := m + 1;
    }
    actualNumberOfMeshes := v / 4;
    PackFinish(primitives, cls, views, v, materialsIndices);
  }

  /** Nothing is packed before the first primitive. */
  lemma PackStart(cls: seq<Option<Submesh>>)
    ensures PackedViews(cls, 0, Zeros(4 * |cls|), 0)
    ensures PackedMaterials(cls, 0, Zeros(|cls|))
  {
    assert cls[..0] == [];
  }

  /** One pass of the loop with the packing invariants carried along. */
  method PackNext(primitives: seq<Token>, ghost cls: seq<Option<Submesh>>, m: nat, views: seq<int>, materials: seq<int>, v: nat)
    returns (views': seq<int>, materials': seq<int>, v': nat)
    requires cls == Classified(primitives) && m < |primitives|
    requires PackedViews(cls, m, views, v) && PackedMaterials(cls, m, materials)
    ensures PackedViews(cls, m + 1, views', v') && PackedMaterials(cls, m + 1, materials')
  {
    PackRoom(cls, m, views, v, materials);
    views', materials', v' := PackPrimitive(primitives, cls, m, views, materials, v);
    MaterialsAdvance(cls, m, materials);
    if cls[m].Some? {
      ViewsPut(cls, m, views, v);
    } else {
      ViewsSkip(cls, m, views, v);
    }
  }

  /** After the last primitive the packing is the whole specification. */
  lemma PackFinish(primitives: seq<Token>, cls: seq<Option<Submesh>>, views: seq<int>, v: nat, materials: seq<int>)
    requires cls == Classified(primitives)
    requires PackedViews(cls, |cls|, views, v) && PackedMaterials(cls, |cls|, materials)
    ensures v / 4 == |ValidSubmeshes(primitives)|
    ensures views == Views(ValidSubmeshes(primitives)) + Zeros(4 * (|primitives| - v / 4))
    ensures materials == MaterialSlots(primitives)
  {
    assert cls[..|cls|] == cls;
    ZeroTail(views, v);
  }

  /** Submesh s of a mesh sits at views [4s, 4s+4). */
  lemma {:induction false} ViewsAt(subs: seq<Submesh>, s: nat)
    requires s < |subs|
    ensures Views(subs)[4 * s..4 * s + 4] == Quad(subs[s])
  {
    var init := subs[..|subs| - 1];
    assert Views(subs) == Views(init) + Quad(subs[|subs| - 1]);
    if s < |subs| - 1 {
      ViewsAt(init, s);
      assert Views(subs)[4 * s..4 * s + 4] == Views(init)[4 * s..4 * s + 4];
    }
  }

  /** The material slots are indexed by primitive while the submeshes are
      packed: when an earlier primitive is skipped, submesh 0 is paired
      with the slot of the skipped primitive, not with its own material. */
  lemma MaterialSlotsNotPacked()
    ensures var good := Dict(map["attributes" := Dict(map["POSITION" := Number(0.0)]),
                                 "indices" := Number(1.0), "material" := Number(5.0)]);
      var mesh := map["primitives" := List([Null, good])];
      MeshInfoOf(mesh).Some? &&
      MeshInfoOf(mesh).value.nSubmeshes == 1 &&
      MeshInfoOf(mesh).value.materials == [0, 5]
  {
    var good := Dict(map["attributes" := Dict(map["POSITION" := Number(0.0)]),
                         "indices" := Number(1.0), "material" := Number(5.0)]);
    var prims := [Null, good];
    var cls := Classified(prims);
    assert SubmeshOf(good).Some?;
    assert cls == [None, SubmeshOf(good)];
    assert cls[..1][..0] == [] && cls[..1] == [None];
    assert MaterialSlot(good) == 5;
  }

  // ---------------------------------------------------------------------
  // Nodes.

  /** A local rotation: read from the document, or taken from a matrix
      (Unity's decomposition of a matrix into a rotation is not modelled;
      `mirrored` records the handedness flip applied to it). */
  datatype Rotation = Quat(q: Quaternion) | RotationOf(m: Matrix4x4, mirrored: bool)
  /** A local scale: read from the document, or the matrix's lossy scale. */
  datatype Scale = ScaleVector(v: Vector3) | LossyScaleOf(m: Matrix4x4)

  datatype NodeInfo = NodeInfo(mesh: int, name: string, position: Vector3, rotation: Rotation, scale: Scale, children: seq<int>)

  /** Translation part of a matrix (`GetPosition`: entries 12, 13, 14). */
  function PositionOf(m: Matrix4x4): Vector3
  {
    if |m.entries| == 16 then Vector3(m.entries[12], m.entries[13], m.entries[14]) else Zero
  }

  /** A listed child: its index when it is a number, -1 otherwise. */
  function ChildIndex(t: Token): int
  {
    if t.Number? then Int32.DoubleToInt(t.n) else -1
  }

  function ChildrenOf(node: Dictionary): seq<int>
  {
    match TryGetValue(node, "children", TDataList)
    case Some(t) => seq(|t.items|, c requires 0 <= c < |t.items| => ChildIndex(t.items[c]))
    case None => []
  }

  /** The specification of `ParseNode`. */
  function NodeOf(node: Dictionary): Run<NodeInfo>
  {
    var meshIndex := DictOptInt(node, "mesh", -1);
    var name := DictOptString(node, "name", "");
    if "matrix" in node then
      match DictOptMatrix4x4(node, "matrix", IdentityMatrix)
      case Fault => Fault
      case Ok(m) => Ok(NodeInfo(meshIndex, name, PositionOf(m), RotationOf(m, false), LossyScaleOf(m), ChildrenOf(node)))
    else
      match DictOptVector3(node, "translation", Zero)
      case Fault => Fault
      case Ok(position) =>
        match DictOptQuaternion(node, "rotation", IdentityRotation)
        case Fault => Fault
        case Ok(rotation) =>
          match DictOptVector3(node, "scale", One)
          case Fault => Fault
          case Ok(scale) => Ok(NodeInfo(meshIndex, name, position, Quat(rotation), ScaleVector(scale), ChildrenOf(node)))
  }

  /** `ParseNode`: mesh index (default -1), name (default ""), the local
      transform from "matrix" when that key exists and from
      translation/rotation/scale otherwise, and the child indices. */
  method ParseNode(node: Dictionary) returns (r: Run<NodeInfo>)
    ensures r == NodeOf(node)
  {
    var meshIndex := DictOptInt(node, "mesh", -1);
    var name := DictOptString(node, "name", "");
    var position: Vector3, rotation: Rotation, scale: Scale;
    if "matrix" in node {
      var matrix := DictOptMatrix4x4(node, "matrix", IdentityMatrix);
      if matrix.Fault? { return Fault; }
      position, rotation, scale := PositionOf(matrix.value), RotationOf(matrix.value, false), LossyScaleOf(matrix.value);
    } else {
      var p := DictOptVector3(node, "translation", Zero);
      if p.Fault? { return Fault; }
      var q := DictOptQuaternion(node, "rotation", IdentityRotation);
      if q.Fault? { return Fault; }
      var s := DictOptVector3(node, "scale", One);
      if s.Fault? { return Fault; }
      position, rotation, scale := p.value, Quat(q.value), ScaleVector(s.value);
    }
    var children: seq<int> := [];
    var childrenToken := TryGetValue(node, "children", TDataList);
    if childrenToken.Some? {
      var childrenList := childrenToken.value.items;
      var nChildren := |childrenList|;
      var arr := new int[nChildren];
      var c := 0;
      while c < nChildren
        invariant 0 <= c <= nChildren
        invariant forall j :: 0 <= j < c ==> arr[j] == ChildIndex(childrenList[j])
      {
        var nodeIndexToken := ListTryGetValue(childrenList, c, TDouble);
        if nodeIndexToken.Some? {
          arr[c] := Int32.DoubleToInt(nodeIndexToken.value.n);
        } else {
          arr[c] := -1;
        }
        c := c + 1;
      }
      children := arr[..];
      assert children == seq(nChildren, c requires 0 <= c < nChildren => ChildIndex(childrenList[c]));
    }
    r := Ok(NodeInfo(meshIndex, name, position, rotation, scale, children));
  }

  /** A node without transform keys sits at the origin, unrotated, at unit
      scale; every child entry that is not a number reads as -1. */
  lemma NodeDefaults(node: Dictionary)
    requires "matrix" !in node && "translation" !in node && "rotation" !in node && "scale" !in node
    ensures NodeOf(node).Ok?
    ensures NodeOf(node).value.position == Zero
    ensures NodeOf(node).value.rotation == Quat(IdentityRotation)
    ensures NodeOf(node).value.scale == ScaleVector(One)
    ensures NodeOf(node).value.mesh == DictOptInt(node, "mesh", -1)
    ensures |NodeOf(node).value.children| == (if "children" in node && node["children"].List? then |node["children"].items| else 0)
    ensures forall c :: 0 <= c < |NodeOf(node).value.children| ==>
      (!node["children"].items[c].Number? ==> NodeOf(node).value.children[c] == -1)
  {
  }
}
