/** The `VRMC_materials_mtoon` material extension: it switches the
    material to the MToon shader, applies a table of toon-shading
    properties from the extension record (each with its default, its
    accepted range and its JSON type), and sets the render mode and
    render queue from the glTF alpha mode. */
module Mtoon {
  import opened Wrappers
  import opened Json
  import opened Materials
  import Document
  import Int32
  import Seqs

  const EXTENSION_NAME: string := "VRMC_materials_mtoon"

  // ---------------------------------------------------------------------
  // The property table.

  /** How a table row reads its value, with its default and range. */
  datatype Kind =
    | BoolProperty(boolDefault: Option<bool>)
    | IntProperty(intDefault: Option<int>, intRange: Option<seq<int>>)
    | FloatProperty(floatDefault: Option<real>, floatRange: Option<seq<real>>)
    | RgbProperty(colorDefault: Option<Color>)
    | GltfTextureProperty
    | FloatEnumProperty(enumDefault: Option<string>, acceptableValues: Option<seq<string>>)

  /** One row: the extension's key, the shader keywords a texture row
      enables, the shader property it writes and how it reads. */
  datatype Row = Row(gltfName: string, keywords: Option<seq<string>>, unityName: string, kind: Kind)

  const UNIT_RANGE: Option<seq<real>> := Some([0.0, 1.0])
  const NON_NEGATIVE: Option<seq<real>> := Some([0.0])
  const BLACK: Color := Color(0.0, 0.0, 0.0, 1.0)
  const WHITE: Color := Color(1.0, 1.0, 1.0, 1.0)
  const PARAMETER_MAP: Option<seq<string>> := Some(["_MTOON_PARAMETERMAP"])
  const RIM_MAP: Option<seq<string>> := Some(["_MTOON_RIMMAP"])

  const OUTLINE_WIDTH_MODES: seq<string> := ["none", "worldCoordinates", "screenCoordinates"]

  const MTOON_PROPERTIES: seq<Row> := [
    Row("transparentWithZWrite", None, "_TransparentWithZWrite", BoolProperty(Some(false))),
    Row("renderQueueOffsetNumber", None, "_RenderQueueOffset", FloatProperty(Some(0.0), Some([-9.0, 9.0]))),
    Row("shadeColorFactor", None, "_ShadeColor", RgbProperty(Some(WHITE))),
    Row("shadeMultiplyTexture", None, "_ShadeTex", GltfTextureProperty),
    Row("shadingShiftFactor", PARAMETER_MAP, "_ShadingShiftFactor", FloatProperty(Some(0.0), None)),
    Row("shadingToonyFactor", None, "_ShadingToonyFactor", FloatProperty(Some(0.9), UNIT_RANGE)),
    Row("giEqualizationFactor", None, "_GiEqualization", FloatProperty(Some(0.9), UNIT_RANGE)),
    Row("matcapFactor", None, "_MatcapColor", RgbProperty(Some(BLACK))),
    Row("matcapTexture", RIM_MAP, "_MatcapTex", GltfTextureProperty),
    Row("parametricRimColorFactor", None, "_RimColor", RgbProperty(Some(BLACK))),
    Row("rimMultiplyTexture", RIM_MAP, "_RimTex", GltfTextureProperty),
    Row("rimLightingMixFactor", None, "_RimLightingMix", FloatProperty(Some(1.0), UNIT_RANGE)),
    Row("parametricRimFresnelPowerFactor", None, "_RimFresnelPower", FloatProperty(Some(5.0), NON_NEGATIVE)),
    Row("parametricRimLiftFactor", None, "_RimLift", FloatProperty(Some(0.0), None)),
    Row("outlineWidthMode", None, "_OutlineWidthMode", FloatEnumProperty(Some("none"), Some(OUTLINE_WIDTH_MODES))),
    Row("outlineWidthFactor", None, "_OutlineWidth", FloatProperty(Some(0.0), NON_NEGATIVE)),
    Row("outlineWidthMultiplyTexture", PARAMETER_MAP, "_OutlineWidthTex", GltfTextureProperty),
    Row("outlineColorFactor", None, "_OutlineColor", RgbProperty(Some(BLACK))),
    Row("outlineLightingMixFactor", None, "_OutlineLightingMix", FloatProperty(Some(1.0), UNIT_RANGE)),
    Row("uvAnimationMaskTexture", PARAMETER_MAP, "_UvAnimMaskTex", GltfTextureProperty),
    Row("uvAnimationScrollXSpeedFactor", None, "_UvAnimScrollXSpeed", FloatProperty(Some(0.0), None)),
    Row("uvAnimationScrollYSpeedFactor", None, "_UvAnimScrollYSpeed", FloatProperty(Some(0.0), None)),
    Row("uvAnimationRotationSpeedFactor", None, "_UvAnimRotationSpeed", FloatProperty(Some(0.0), None))
  ]

  // ---------------------------------------------------------------------
  // Value conversions.

  /** `Mathf.Clamp` on floats. */
  function ClampReal(x: real, lo: real, hi: real): (r: real)
    requires lo <= hi
    ensures lo <= r <= hi
    ensures lo <= x <= hi ==> r == x
  {
    if x < lo then lo else if x > hi then hi else x
  }

  /** `ClampToFloatRange`: no range leaves the value; the first bound is a
      minimum; a second bound, when there is one, a maximum; reading the
      first bound of an empty range throws. */
  function ClampToFloatRange(value: real, range: Option<seq<real>>): (r: Run<real>)
  {
    if range.None? then Ok(value)
    else if |range.value| == 0 then Fault
    else if value < range.value[0] then Ok(range.value[0])
    else if |range.value| > 1 && value > range.value[1] then Ok(range.value[1])
    else Ok(value)
  }

  /** `ClampToIntRange`, the same on ints. */
  function ClampToIntRange(value: int, range: Option<seq<int>>): (r: Run<int>)
  {
    if range.None? then Ok(value)
    else if |range.value| == 0 then Fault
    else if value < range.value[0] then Ok(range.value[0])
    else if |range.value| > 1 && value > range.value[1] then Ok(range.value[1])
    else Ok(value)
  }

  /** A two-bound range clamps like `Mathf.Clamp`, a one-bound range only
      from below, and no range not at all. */
  lemma ClampToFloatRangeSpec(value: real, range: Option<seq<real>>)
    ensures range.None? ==> ClampToFloatRange(value, range) == Ok(value)
    ensures range.Some? && |range.value| == 0 ==> ClampToFloatRange(value, range).Fault?
    ensures range.Some? && |range.value| == 1 ==>
      ClampToFloatRange(value, range) == Ok(if value < range.value[0] then range.value[0] else value)
    ensures range.Some? && |range.value| >= 2 && range.value[0] <= range.value[1] ==>
      ClampToFloatRange(value, range) == Ok(ClampReal(value, range.value[0], range.value[1]))
  {
  }

  lemma ClampToIntRangeSpec(value: int, range: Option<seq<int>>)
    ensures range.None? ==> ClampToIntRange(value, range) == Ok(value)
    ensures range.Some? && |range.value| == 0 ==> ClampToIntRange(value, range).Fault?
    ensures range.Some? && |range.value| == 1 ==>
      ClampToIntRange(value, range) == Ok(Int32.Max(value, range.value[0]))
    ensures range.Some? && |range.value| >= 2 && range.value[0] <= range.value[1] ==>
      ClampToIntRange(value, range) == Ok(Int32.Clamp(value, range.value[0], range.value[1]))
  {
  }

  /** The color `TryConvertDataListToColor` produces: red, green and blue
      clamped to [0, 1] and an opaque alpha, when the list starts with
      three numbers. */
  function ListColor(list: seq<Token>): (r: Option<Color>)
    ensures r.Some? <==> |list| >= 3 && Document.AllNumbers(list, 3)
    ensures r.Some? ==> && 0.0 <= r.value.r <= 1.0 && 0.0 <= r.value.g <= 1.0 && 0.0 <= r.value.b <= 1.0
                        && r.value.a == 1.0
    ensures r.Some? && 0.0 <= list[0].n <= 1.0 && 0.0 <= list[1].n <= 1.0 && 0.0 <= list[2].n <= 1.0 ==>
      r.value == Color(list[0].n, list[1].n, list[2].n, 1.0)
  {
    if |list| < 3 || !Document.AllNumbers(list, 3) then None
    else Some(Color(ClampReal(list[0].n, 0.0, 1.0), ClampReal(list[1].n, 0.0, 1.0), ClampReal(list[2].n, 0.0, 1.0), 1.0))
  }

  /** `TryConvertDataListToColor`: the type check of the first three
      elements, then the clamped color; a failed conversion leaves the
      zero color in the out parameter. */
  method TryConvertDataListToColor(list: seq<Token>) returns (ok: bool, color: Color)
    ensures ok <==> ListColor(list).Some?
    ensures ok ==> color == ListColor(list).value
    ensures !ok ==> color == Color(0.0, 0.0, 0.0, 0.0)
  {
    color := Color(0.0, 0.0, 0.0, 0.0);
    var nColorAttributes := 3;
    if |list| < nColorAttributes {
      return false, color;
    }
    var allAttributesOk := true;
    var i := 0;
    while i < nColorAttributes
      invariant 0 <= i <= nColorAttributes
      invariant allAttributesOk <==> forall j :: 0 <= j < i ==> list[j].Number?
    {
      allAttributesOk := allAttributesOk && TypeOf(list[i]) == TDouble;
      i := i + 1;
    }
    if !allAttributesOk {
      return false, color;
    }
    color := Color(ClampReal(list[0].n, 0.0, 1.0), ClampReal(list[1].n, 0.0, 1.0), ClampReal(list[2].n, 0.0, 1.0), 1.0);
    ok := true;
  }

  // ---------------------------------------------------------------------
  // Texture references.

  const ZERO2: Vector2 := Vector2(0.0, 0.0)
  const ONE2: Vector2 := Vector2(1.0, 1.0)

  /** `DictOptVector2`: a list of at least two elements is converted (the
      element type check always passes, so a non-number throws in the
      cast); anything else gives the default. */
  function DictOptVector2(dict: Dictionary, fieldName: string, defaultValue: Vector2): (r: Run<Vector2>)
    ensures !(fieldName in dict && dict[fieldName].List? && |dict[fieldName].items| >= 2) ==> r == Ok(defaultValue)
    ensures fieldName in dict && dict[fieldName].List? && |dict[fieldName].items| >= 2 ==>
      var l := dict[fieldName].items;
      r == if l[0].Number? && l[1].Number? then Ok(Vector2(l[0].n, l[1].n)) else Fault
  {
    match TryGetValue(dict, fieldName, TDataList)
    case None => Ok(defaultValue)
    case Some(t) =>
      if |t.items| < 2 then Ok(defaultValue)
      else if t.items[0].Number? && t.items[1].Number? then Ok(Vector2(t.items[0].n, t.items[1].n))
      else Fault
  }

  /** `HandleKhrTextureTransform`: offset and scale of a texture record,
      (0, 0) and (1, 1) unless `extensions.KHR_texture_transform` is a
      dictionary, whose "offset" and "scale" are read with the same
      defaults. */
  function HandleKhrTextureTransform(textureInfo: Dictionary): (r: Run<(Vector2, Vector2)>)
  {
    match TryGetValue(textureInfo, "extensions", TDataDictionary)
    case None => Ok((ZERO2, ONE2))
    case Some(extensions) =>
      match TryGetValue(extensions.fields, "KHR_texture_transform", TDataDictionary)
      case None => Ok((ZERO2, ONE2))
      case Some(transform) =>
        match DictOptVector2(transform.fields, "offset", ZERO2)
        case Fault => Fault
        case Ok(offset) =>
          match DictOptVector2(transform.fields, "scale", ONE2)
          case Fault => Fault
          case Ok(scale) => Ok((offset, scale))
  }

  /** The record of the transform extension, when there is one. */
  function TransformRecord(textureInfo: Dictionary): Option<Dictionary>
  {
    if "extensions" in textureInfo && textureInfo["extensions"].Dict?
       && "KHR_texture_transform" in textureInfo["extensions"].fields
       && textureInfo["extensions"].fields["KHR_texture_transform"].Dict?
    then Some(textureInfo["extensions"].fields["KHR_texture_transform"].fields)
    else None
  }

  /** Without the transform extension the identity transform; with it,
      the offset and scale it lists (a missing one takes the identity's). */
  lemma TextureTransformSpec(textureInfo: Dictionary)
    ensures TransformRecord(textureInfo).None? ==> HandleKhrTextureTransform(textureInfo) == Ok((ZERO2, ONE2))
    ensures TransformRecord(textureInfo).Some? ==>
      var t := TransformRecord(textureInfo).value;
      HandleKhrTextureTransform(textureInfo) ==
        match DictOptVector2(t, "offset", ZERO2)
        case Fault => Fault
        case Ok(offset) =>
          match DictOptVector2(t, "scale", ONE2)
          case Fault => Fault
          case Ok(scale) => Ok((offset, scale))
  {
  }

  /** What `SetMaterialGltfTexture` does to a material: nothing unless the
      record's numeric "index" names one of the loaded textures; then the
      texture, its offset and its scale. */
  function GltfTextureStep(s: MaterialState, propertyName: string, info: Dictionary, textures: seq<Option<Texture>>): (r: Run<MaterialState>)
  {
    match TryGetValue(info, "index", TDouble)
    case None => Ok(s)
    case Some(indexToken) =>
      var index := Int32.DoubleToInt(indexToken.n);
      if index < 0 || index >= |textures| then Ok(s)
      else
        var s := WithTexture(s, propertyName, textures[index]);
        match HandleKhrTextureTransform(info)
        case Fault => Fault
        case Ok((offset, scale)) =>
          Ok(s.(offsets := s.offsets[propertyName := offset], scales := s.scales[propertyName := scale]))
  }

  /** The material is left alone for a missing, negative or too large
      index; otherwise it shows the indexed texture under the property. */
  lemma GltfTextureStepSpec(s: MaterialState, propertyName: string, info: Dictionary, textures: seq<Option<Texture>>)
    ensures !("index" in info && info["index"].Number?) ==> GltfTextureStep(s, propertyName, info, textures) == Ok(s)
    ensures "index" in info && info["index"].Number? ==>
      var index := Int32.DoubleToInt(info["index"].n);
      && (index < 0 || index >= |textures| ==> GltfTextureStep(s, propertyName, info, textures) == Ok(s))
      && (0 <= index < |textures| ==>
            (GltfTextureStep(s, propertyName, info, textures).Ok? <==> HandleKhrTextureTransform(info).Ok?))
      && (0 <= index < |textures| && HandleKhrTextureTransform(info).Ok? ==>
            var m := GltfTextureStep(s, propertyName, info, textures).value;
            && m.textures == s.textures[propertyName := textures[index]]
            && m.offsets == s.offsets[propertyName := HandleKhrTextureTransform(info).value.0]
            && m.scales == s.scales[propertyName := HandleKhrTextureTransform(info).value.1]
            && m.floats == s.floats && m.colors == s.colors && m.keywords == s.keywords)
  {
  }

  /** `SetMaterialGltfTexture`. */
  method SetMaterialGltfTexture(mat: Material, propertyName: string, info: Dictionary, textures: seq<Option<Texture>>)
    returns (r: Run<()>)
    modifies mat
    ensures r.Fault? <==> GltfTextureStep(old(mat.State()), propertyName, info, textures).Fault?
    ensures r.Ok? ==> mat.State() == GltfTextureStep(old(mat.State()), propertyName, info, textures).value
  {
    var hasIndex := TryGetValue(info, "index", TDouble);
    if hasIndex.None? {
      return Ok(());
    }
    var index := Int32.DoubleToInt(hasIndex.value.n);
    if index < 0 {
      return Ok(());
    }
    if index >= |textures| {
      return Ok(());
    }
    mat.SetTexture(propertyName, textures[index]);
    var transform := HandleKhrTextureTransform(info);
    if transform.Fault? {
      return Fault;
    }
    mat.SetTextureOffset(propertyName, transform.value.0);
    mat.SetTextureScale(propertyName, transform.value.1);
    r := Ok(());
  }

  // ---------------------------------------------------------------------
  // Enumerations.

  /** What `SetMaterialFloatEnumValue` does: the property becomes the
      position of the value among the acceptable values (the last one, as
      every match is written in turn); nothing for a null argument or an
      unknown value. */
  function EnumValueStep(s: MaterialState, propertyName: string, enumValue: Option<string>, acceptableValues: Option<seq<string>>): MaterialState
  {
    if enumValue.None? || acceptableValues.None? then s
    else
      var v := Seqs.LastIndexOf(enumValue.value, acceptableValues.value);
      if v < 0 then s else WithFloat(s, propertyName, v as real)
  }

  /** For distinct acceptable values, the property is the value's own
      index; an unknown value leaves the material as it was. */
  lemma EnumValueStepSpec(s: MaterialState, propertyName: string, enumValue: string, values: seq<string>, i: nat)
    requires i < |values| && values[i] == enumValue
    requires forall j, k :: 0 <= j < k < |values| ==> values[j] != values[k]
    ensures EnumValueStep(s, propertyName, Some(enumValue), Some(values)) == WithFloat(s, propertyName, i as real)
    ensures GetFloat(EnumValueStep(s, propertyName, Some(enumValue), Some(values)), propertyName) == i as real
  {
    var v := Seqs.LastIndexOf(enumValue, values);
    assert v == i;
  }

  lemma EnumValueUnknown(s: MaterialState, propertyName: string, enumValue: Option<string>, values: Option<seq<string>>)
    requires enumValue.None? || values.None? || enumValue.value !in values.value
    ensures EnumValueStep(s, propertyName, enumValue, values) == s
  {
  }

  /** `SetMaterialFloatEnumValue`: every acceptable value equal to the
      given one writes its index. */
  method SetMaterialFloatEnumValue(material: Material, propertyName: string, enumValue: Option<string>, acceptableValues: Option<seq<string>>)
    modifies material
    ensures material.State() == EnumValueStep(old(material.State()), propertyName, enumValue, acceptableValues)
  {
    if enumValue.None? {
      return;
    }
    if acceptableValues.None? {
      return;
    }
    ghost var s0 := material.State();
    var values := acceptableValues.value;
    var nAcceptableValues := |values|;
    var v := 0;
    while v < nAcceptableValues
      invariant 0 <= v <= nAcceptableValues
      invariant material.State() == EnumValueStep(s0, propertyName, enumValue, Some(values[..v]))
    {
      assert values[..v + 1][..v] == values[..v];
      if enumValue.value == values[v] {
        material.SetFloat(propertyName, v as real);
      }
      v := v + 1;
    }
    assert values[..nAcceptableValues] == values;
  }

  // ---------------------------------------------------------------------
  // One table row.

  function Bit(b: bool): real
  {
    if b then 1.0 else 0.0
  }

  /** The keywords a row lists. */
  function KeywordSet(keywords: seq<string>): (r: set<string>)
    ensures forall k :: k in r <==> k in keywords
  {
    set k | k in keywords
  }

  lemma KeywordSetStep(keywords: seq<string>, k: nat)
    requires k < |keywords|
    ensures KeywordSet(keywords[..k + 1]) == KeywordSet(keywords[..k]) + {keywords[k]}
  {
    assert keywords[..k + 1] == keywords[..k] + [keywords[k]];
  }

  /** The keywords of a texture row, enabled. */
  function WithKeywords(s: MaterialState, keywords: Option<seq<string>>): (r: MaterialState)
    ensures r == s.(keywords := r.keywords)
    ensures keywords.None? ==> r.keywords == s.keywords
    ensures keywords.Some? ==> r.keywords == s.keywords + KeywordSet(keywords.value)
  {
    if keywords.None? then s else s.(keywords := s.keywords + KeywordSet(keywords.value))
  }

  /** What `TryApplyProperty` does with one row: the row's default is
      written first (when the row has one); then a value of the row's
      JSON type under the row's key overwrites it, after clamping or
      conversion. */
  function PropertyStep(s: MaterialState, textures: seq<Option<Texture>>, gltfMtoon: Dictionary, row: Row): (r: Run<MaterialState>)
  {
    var name := row.unityName;
    match row.kind
    case BoolProperty(d) =>
      var s := if d.Some? then WithFloat(s, name, Bit(d.value)) else s;
      (match TryGetValue(gltfMtoon, row.gltfName, TBoolean)
       case None => Ok(s)
       case Some(t) => Ok(WithFloat(s, name, Bit(t.b))))
    case IntProperty(d, range) =>
      var s := if d.Some? then WithInt(s, name, d.value) else s;
      (match TryGetValue(gltfMtoon, row.gltfName, TDouble)
       case None => Ok(s)
       case Some(t) =>
         match ClampToIntRange(Int32.DoubleToInt(t.n), range)
         case Fault => Fault
         case Ok(v) => Ok(WithInt(s, name, v)))
    case FloatProperty(d, range) =>
      var s := if d.Some? then WithFloat(s, name, d.value) else s;
      (match TryGetValue(gltfMtoon, row.gltfName, TDouble)
       case None => Ok(s)
       case Some(t) =>
         match ClampToFloatRange(t.n, range)
         case Fault => Fault
         case Ok(v) => Ok(WithFloat(s, name, v)))
    case RgbProperty(d) =>
      var s := if d.Some? then WithColor(s, name, d.value) else s;
      (match TryGetValue(gltfMtoon, row.gltfName, TDataList)
       case None => Ok(s)
       case Some(t) =>
         match ListColor(t.items)
         case None => Ok(s)
         case Some(color) => Ok(WithColor(s, name, color)))
    case GltfTextureProperty =>
      (match TryGetValue(gltfMtoon, row.gltfName, TDataDictionary)
       case None => Ok(s)
       case Some(t) => GltfTextureStep(WithKeywords(s, row.keywords), name, t.fields, textures))
    case FloatEnumProperty(d, values) =>
      var s := EnumValueStep(s, name, d, values);
      match TryGetValue(gltfMtoon, row.gltfName, TString)
      case None => Ok(s)
      case Some(t) => Ok(EnumValueStep(s, name, Some(t.s), values))
  }

  /** A bool row: the default (as 0 or 1) first, when the row has one,
      then the extension's boolean when it holds one under the key. */
  lemma BoolRowSpec(s: MaterialState, textures: seq<Option<Texture>>, gltfMtoon: Dictionary, row: Row)
    requires row.kind.BoolProperty?
    ensures var d := row.kind.boolDefault;
      !(row.gltfName in gltfMtoon && gltfMtoon[row.gltfName].Boolean?) ==>
        PropertyStep(s, textures, gltfMtoon, row) == Ok(if d.Some? then WithFloat(s, row.unityName, Bit(d.value)) else s)
    ensures row.gltfName in gltfMtoon && gltfMtoon[row.gltfName].Boolean? ==>
      PropertyStep(s, textures, gltfMtoon, row) == Ok(WithFloat(s, row.unityName, Bit(gltfMtoon[row.gltfName].b)))
  {
    var d := row.kind.boolDefault;
    if d.Some? && row.gltfName in gltfMtoon && gltfMtoon[row.gltfName].Boolean? {
      UpdateOverwrite(s.floats, row.unityName, Bit(d.value), Bit(gltfMtoon[row.gltfName].b));
    }
  }

  /** An int row: the default first, when the row has one, then the
      extension's number cast to `int` and clamped to the row's range;
      clamping to an empty range throws. */
  lemma IntRowSpec(s: MaterialState, textures: seq<Option<Texture>>, gltfMtoon: Dictionary, row: Row)
    requires row.kind.IntProperty?
    ensures var d := row.kind.intDefault;
      !(row.gltfName in gltfMtoon && gltfMtoon[row.gltfName].Number?) ==>
        PropertyStep(s, textures, gltfMtoon, row) == Ok(if d.Some? then WithInt(s, row.unityName, d.value) else s)
    ensures row.gltfName in gltfMtoon && gltfMtoon[row.gltfName].Number? ==>
      var c := ClampToIntRange(Int32.DoubleToInt(gltfMtoon[row.gltfName].n), row.kind.intRange);
      PropertyStep(s, textures, gltfMtoon, row) == if c.Ok? then Ok(WithInt(s, row.unityName, c.value)) else Fault
  {
    var d := row.kind.intDefault;
    if d.Some? && row.gltfName in gltfMtoon && gltfMtoon[row.gltfName].Number? {
      var c := ClampToIntRange(Int32.DoubleToInt(gltfMtoon[row.gltfName].n), row.kind.intRange);
      if c.Ok? {
        UpdateOverwrite(s.floats, row.unityName, d.value as real, c.value as real);
      }
    }
  }

  /** A color row: the default first, when the row has one, then the
      extension's list when it converts to a color (three leading numbers,
      clamped to [0, 1], alpha 1); a list that does not convert keeps the
      default. */
  lemma RgbRowSpec(s: MaterialState, textures: seq<Option<Texture>>, gltfMtoon: Dictionary, row: Row)
    requires row.kind.RgbProperty?
    ensures var d := row.kind.colorDefault;
      !(row.gltfName in gltfMtoon && gltfMtoon[row.gltfName].List? && ListColor(gltfMtoon[row.gltfName].items).Some?) ==>
        PropertyStep(s, textures, gltfMtoon, row) == Ok(if d.Some? then WithColor(s, row.unityName, d.value) else s)
    ensures row.gltfName in gltfMtoon && gltfMtoon[row.gltfName].List? && ListColor(gltfMtoon[row.gltfName].items).Some? ==>
      PropertyStep(s, textures, gltfMtoon, row) == Ok(WithColor(s, row.unityName, ListColor(gltfMtoon[row.gltfName].items).value))
  {
    var d := row.kind.colorDefault;
    if d.Some? && row.gltfName in gltfMtoon && gltfMtoon[row.gltfName].List? && ListColor(gltfMtoon[row.gltfName].items).Some? {
      UpdateOverwrite(s.colors, row.unityName, d.value, ListColor(gltfMtoon[row.gltfName].items).value);
    }
  }

  /** A float row: the default when the extension has no number under the
      key, the clamped number when it has. */
  lemma FloatRowSpec(s: MaterialState, textures: seq<Option<Texture>>, gltfMtoon: Dictionary, row: Row)
    requires row.kind.FloatProperty? && row.kind.floatDefault.Some?
    requires row.kind.floatRange.None? || |row.kind.floatRange.value| > 0
    ensures !(row.gltfName in gltfMtoon && gltfMtoon[row.gltfName].Number?) ==>
      PropertyStep(s, textures, gltfMtoon, row) == Ok(WithFloat(s, row.unityName, row.kind.floatDefault.value))
    ensures row.gltfName in gltfMtoon && gltfMtoon[row.gltfName].Number? ==>
      PropertyStep(s, textures, gltfMtoon, row)
        == Ok(WithFloat(s, row.unityName, ClampToFloatRange(gltfMtoon[row.gltfName].n, row.kind.floatRange).value))
  {
    if row.gltfName in gltfMtoon && gltfMtoon[row.gltfName].Number? {
      var v := ClampToFloatRange(gltfMtoon[row.gltfName].n, row.kind.floatRange).value;
      UpdateOverwrite(s.floats, row.unityName, row.kind.floatDefault.value, v);
    }
  }

  /** A texture row enables its keywords only when the extension holds a
      texture record under its key; without one nothing changes. */
  lemma TextureRowSpec(s: MaterialState, textures: seq<Option<Texture>>, gltfMtoon: Dictionary, row: Row)
    requires row.kind.GltfTextureProperty?
    ensures !(row.gltfName in gltfMtoon && gltfMtoon[row.gltfName].Dict?) ==>
      PropertyStep(s, textures, gltfMtoon, row) == Ok(s)
    ensures row.gltfName in gltfMtoon && gltfMtoon[row.gltfName].Dict? && row.keywords.Some?
            && PropertyStep(s, textures, gltfMtoon, row).Ok? ==>
      PropertyStep(s, textures, gltfMtoon, row).value.keywords == s.keywords + KeywordSet(row.keywords.value)
  {
    var r := PropertyStep(s, textures, gltfMtoon, row);
    if row.gltfName in gltfMtoon && gltfMtoon[row.gltfName].Dict? && row.keywords.Some? && r.Ok? {
      GltfTextureKeeps(WithKeywords(s, row.keywords), row.unityName, gltfMtoon[row.gltfName].fields, textures);
    }
  }

  /** `m` differs from `s` at most in the properties named `name` and in
      added keywords. */
  predicate Local(s: MaterialState, m: MaterialState, name: string)
  {
    && m.floats - {name} == s.floats - {name}
    && m.colors - {name} == s.colors - {name}
    && m.textures - {name} == s.textures - {name}
    && m.offsets - {name} == s.offsets - {name}
    && m.scales - {name} == s.scales - {name}
    && m.name == s.name && m.shader == s.shader && m.renderQueue == s.renderQueue && m.tags == s.tags
    && s.keywords <= m.keywords
  }

  lemma UpdateMinus<K, V>(m: map<K, V>, k: K, v: V)
    ensures m[k := v] - {k} == m - {k}
  {
  }

  lemma LocalTrans(a: MaterialState, b: MaterialState, c: MaterialState, name: string)
    requires Local(a, b, name) && Local(b, c, name)
    ensures Local(a, c, name)
  {
  }

  lemma LocalFloat(s: MaterialState, name: string, v: real)
    ensures Local(s, WithFloat(s, name, v), name)
  {
    UpdateMinus(s.floats, name, v);
  }

  lemma LocalColor(s: MaterialState, name: string, c: Color)
    ensures Local(s, WithColor(s, name, c), name)
  {
    UpdateMinus(s.colors, name, c);
  }

  lemma LocalEnum(s: MaterialState, name: string, enumValue: Option<string>, values: Option<seq<string>>)
    ensures Local(s, EnumValueStep(s, name, enumValue, values), name)
    ensures EnumValueStep(s, name, enumValue, values).keywords == s.keywords
  {
    if enumValue.Some? && values.Some? && Seqs.LastIndexOf(enumValue.value, values.value) >= 0 {
      LocalFloat(s, name, Seqs.LastIndexOf(enumValue.value, values.value) as real);
    }
  }

  lemma GltfTextureKeeps(s: MaterialState, propertyName: string, info: Dictionary, textures: seq<Option<Texture>>)
    requires GltfTextureStep(s, propertyName, info, textures).Ok?
    ensures Local(s, GltfTextureStep(s, propertyName, info, textures).value, propertyName)
    ensures GltfTextureStep(s, propertyName, info, textures).value.keywords == s.keywords
    ensures GltfTextureStep(s, propertyName, info, textures).value.floats == s.floats
    ensures GltfTextureStep(s, propertyName, info, textures).value.colors == s.colors
  {
    var m := GltfTextureStep(s, propertyName, info, textures).value;
    if m != s {
      var index := Int32.DoubleToInt(info["index"].n);
      var transform := HandleKhrTextureTransform(info).value;
      assert m.textures == s.textures[propertyName := textures[index]];
      UpdateMinus(s.textures, propertyName, textures[index]);
      UpdateMinus(s.offsets, propertyName, transform.0);
      UpdateMinus(s.scales, propertyName, transform.1);
    }
  }

  lemma BoolRowLocal(s: MaterialState, textures: seq<Option<Texture>>, gltfMtoon: Dictionary, row: Row)
    requires row.kind.BoolProperty? && PropertyStep(s, textures, gltfMtoon, row).Ok?
    ensures Local(s, PropertyStep(s, textures, gltfMtoon, row).value, row.unityName)
    ensures PropertyStep(s, textures, gltfMtoon, row).value.keywords == s.keywords
  {
    var name, d := row.unityName, row.kind.boolDefault;
    var m := PropertyStep(s, textures, gltfMtoon, row).value;
    var s1 := if d.Some? then WithFloat(s, name, Bit(d.value)) else s;
    if d.Some? { LocalFloat(s, name, Bit(d.value)); }
    if m != s1 { LocalFloat(s1, name, Bit(gltfMtoon[row.gltfName].b)); LocalTrans(s, s1, m, name); }
  }

  lemma IntRowLocal(s: MaterialState, textures: seq<Option<Texture>>, gltfMtoon: Dictionary, row: Row)
    requires row.kind.IntProperty? && PropertyStep(s, textures, gltfMtoon, row).Ok?
    ensures Local(s, PropertyStep(s, textures, gltfMtoon, row).value, row.unityName)
    ensures PropertyStep(s, textures, gltfMtoon, row).value.keywords == s.keywords
  {
    var name, d := row.unityName, row.kind.intDefault;
    var m := PropertyStep(s, textures, gltfMtoon, row).value;
    var s1 := if d.Some? then WithInt(s, name, d.value) else s;
    if d.Some? { LocalFloat(s, name, d.value as real); }
    if m != s1 {
      var v := ClampToIntRange(Int32.DoubleToInt(gltfMtoon[row.gltfName].n), row.kind.intRange).value;
      LocalFloat(s1, name, v as real); LocalTrans(s, s1, m, name);
    }
  }

  lemma FloatRowLocal(s: MaterialState, textures: seq<Option<Texture>>, gltfMtoon: Dictionary, row: Row)
    requires row.kind.FloatProperty? && PropertyStep(s, textures, gltfMtoon, row).Ok?
    ensures Local(s, PropertyStep(s, textures, gltfMtoon, row).value, row.unityName)
    ensures PropertyStep(s, textures, gltfMtoon, row).value.keywords == s.keywords
  {
    var name, d := row.unityName, row.kind.floatDefault;
    var m := PropertyStep(s, textures, gltfMtoon, row).value;
    var s1 := if d.Some? then WithFloat(s, name, d.value) else s;
    if d.Some? { LocalFloat(s, name, d.value); }
    if m != s1 {
      var v := ClampToFloatRange(gltfMtoon[row.gltfName].n, row.kind.floatRange).value;
      LocalFloat(s1, name, v); LocalTrans(s, s1, m, name);
    }
  }

  lemma RgbRowLocal(s: MaterialState, textures: seq<Option<Texture>>, gltfMtoon: Dictionary, row: Row)
    requires row.kind.RgbProperty? && PropertyStep(s, textures, gltfMtoon, row).Ok?
    ensures Local(s, PropertyStep(s, textures, gltfMtoon, row).value, row.unityName)
    ensures PropertyStep(s, textures, gltfMtoon, row).value.keywords == s.keywords
  {
    var name, d := row.unityName, row.kind.colorDefault;
    var m := PropertyStep(s, textures, gltfMtoon, row).value;
    var s1 := if d.Some? then WithColor(s, name, d.value) else s;
    if d.Some? { LocalColor(s, name, d.value); }
    if m != s1 {
      var c := ListColor(gltfMtoon[row.gltfName].items).value;
      LocalColor(s1, name, c); LocalTrans(s, s1, m, name);
    }
  }

  lemma TextureRowLocal(s: MaterialState, textures: seq<Option<Texture>>, gltfMtoon: Dictionary, row: Row)
    requires row.kind.GltfTextureProperty? && PropertyStep(s, textures, gltfMtoon, row).Ok?
    ensures Local(s, PropertyStep(s, textures, gltfMtoon, row).value, row.unityName)
    ensures row.keywords.None? ==> PropertyStep(s, textures, gltfMtoon, row).value.keywords == s.keywords
  {
    var name := row.unityName;
    var m := PropertyStep(s, textures, gltfMtoon, row).value;
    if m != s {
      var s1 := WithKeywords(s, row.keywords);
      GltfTextureKeeps(s1, name, gltfMtoon[row.gltfName].fields, textures);
      LocalTrans(s, s1, m, name);
    }
  }

  lemma EnumRowLocal(s: MaterialState, textures: seq<Option<Texture>>, gltfMtoon: Dictionary, row: Row)
    requires row.kind.FloatEnumProperty? && PropertyStep(s, textures, gltfMtoon, row).Ok?
    ensures Local(s, PropertyStep(s, textures, gltfMtoon, row).value, row.unityName)
    ensures PropertyStep(s, textures, gltfMtoon, row).value.keywords == s.keywords
  {
    var name, d, values := row.unityName, row.kind.enumDefault, row.kind.acceptableValues;
    var m := PropertyStep(s, textures, gltfMtoon, row).value;
    var s1 := EnumValueStep(s, name, d, values);
    LocalEnum(s, name, d, values);
    if m != s1 {
      LocalEnum(s1, name, Some(gltfMtoon[row.gltfName].s), values);
      LocalTrans(s, s1, m, name);
    }
  }

  /** A row writes only its own shader property (and, for a texture row,
      its keywords): every other property, the shader, the queue, the name
      and the tags stay. */
  lemma PropertyStepLocal(s: MaterialState, textures: seq<Option<Texture>>, gltfMtoon: Dictionary, row: Row)
    requires PropertyStep(s, textures, gltfMtoon, row).Ok?
    ensures Local(s, PropertyStep(s, textures, gltfMtoon, row).value, row.unityName)
    ensures !row.kind.GltfTextureProperty? || row.keywords.None? ==>
      PropertyStep(s, textures, gltfMtoon, row).value.keywords == s.keywords
  {
    match row.kind
    case BoolProperty(_) => BoolRowLocal(s, textures, gltfMtoon, row);
    case IntProperty(_, _) => IntRowLocal(s, textures, gltfMtoon, row);
    case FloatProperty(_, _) => FloatRowLocal(s, textures, gltfMtoon, row);
    case RgbProperty(_) => RgbRowLocal(s, textures, gltfMtoon, row);
    case GltfTextureProperty => TextureRowLocal(s, textures, gltfMtoon, row);
    case FloatEnumProperty(_, _) => EnumRowLocal(s, textures, gltfMtoon, row);
  }

  /** `TryApplyProperty`. */
  method TryApplyProperty(textures: seq<Option<Texture>>, mat: Material, gltfMtoon: Dictionary, row: Row) returns (r: Run<()>)
    modifies mat
    ensures r.Fault? <==> PropertyStep(old(mat.State()), textures, gltfMtoon, row).Fault?
    ensures r.Ok? ==> mat.State() == PropertyStep(old(mat.State()), textures, gltfMtoon, row).value
  {
    var name := row.unityName;
    r := Ok(());
    match row.kind
    case BoolProperty(d) =>
      if d.Some? {
        mat.SetFloat(name, Bit(d.value));
      }
      var token := TryGetValue(gltfMtoon, row.gltfName, TBoolean);
      if token.Some? {
        mat.SetFloat(name, Bit(token.value.b));
      }
    case IntProperty(d, range) =>
      if d.Some? {
        mat.SetInt(name, d.value);
      }
      var token := TryGetValue(gltfMtoon, row.gltfName, TDouble);
      if token.Some? {
        var value := ClampToIntRange(Int32.DoubleToInt(token.value.n), range);
        if value.Fault? {
          return Fault;
        }
        mat.SetInt(name, value.value);
      }
    case FloatProperty(d, range) =>
      if d.Some? {
        mat.SetFloat(name, d.value);
      }
      var token := TryGetValue(gltfMtoon, row.gltfName, TDouble);
      if token.Some? {
        var value := ClampToFloatRange(token.value.n, range);
        if value.Fault? {
          return Fault;
        }
        mat.SetFloat(name, value.value);
      }
    case RgbProperty(d) =>
      if d.Some? {
        mat.SetColor(name, d.value);
      }
      var token := TryGetValue(gltfMtoon, row.gltfName, TDataList);
      if token.Some? {
        var converted, color := TryConvertDataListToColor(token.value.items);
        if converted {
          mat.SetColor(name, color);
        }
      }
    case GltfTextureProperty =>
      var token := TryGetValue(gltfMtoon, row.gltfName, TDataDictionary);
      if token.Some? {
        if row.keywords.Some? {
          EnableKeywords(mat, row.keywords.value);
        }
        r := SetMaterialGltfTexture(mat, name, token.value.fields, textures);
      }
    case FloatEnumProperty(d, values) =>
      SetMaterialFloatEnumValue(mat, name, d, values);
      var token := TryGetValue(gltfMtoon, row.gltfName, TString);
      if token.Some? {
        SetMaterialFloatEnumValue(mat, name, Some(token.value.s), values);
      }
  }

  /** The keyword loop of a texture row. */
  method EnableKeywords(mat: Material, keywords: seq<string>)
    modifies mat
    ensures mat.State() == WithKeywords(old(mat.State()), Some(keywords))
  {
    ghost var s0 := mat.State();
    var nKeywords := |keywords|;
    var k := 0;
    while k < nKeywords
      invariant 0 <= k <= nKeywords
      invariant mat.State() == s0.(keywords := s0.keywords + KeywordSet(keywords[..k]))
    {
      KeywordSetStep(keywords, k);
      mat.EnableKeyword(keywords[k]);
      k := k + 1;
    }
    assert keywords[..nKeywords] == keywords;
  }

  // ---------------------------------------------------------------------
  // The whole table.

  /** The rows applied in order; the first fault stops the walk. */
  function ApplyAll(s: MaterialState, textures: seq<Option<Texture>>, gltfMtoon: Dictionary, rows: seq<Row>): Run<MaterialState>
  {
    if rows == [] then Ok(s)
    else
      match ApplyAll(s, textures, gltfMtoon, rows[..|rows| - 1])
      case Fault => Fault
      case Ok(t) => PropertyStep(t, textures, gltfMtoon, rows[|rows| - 1])
  }

  /** A fault on a prefix of the rows is a fault of the whole walk. */
  lemma {:induction false} ApplyAllFaultStays(s: MaterialState, textures: seq<Option<Texture>>, gltfMtoon: Dictionary, rows: seq<Row>, k: nat)
    requires k <= |rows| && ApplyAll(s, textures, gltfMtoon, rows[..k]).Fault?
    ensures ApplyAll(s, textures, gltfMtoon, rows).Fault?
    decreases |rows| - k
  {
    if k < |rows| {
      assert rows[..k + 1][..k] == rows[..k];
      ApplyAllFaultStays(s, textures, gltfMtoon, rows, k + 1);
    } else {
      assert rows[..k] == rows;
    }
  }

  /** A property no row names keeps its value through the whole walk. */
  lemma {:induction false} ApplyAllKeepsFloat(s: MaterialState, textures: seq<Option<Texture>>, gltfMtoon: Dictionary, rows: seq<Row>, name: string)
    requires ApplyAll(s, textures, gltfMtoon, rows).Ok?
    requires forall i :: 0 <= i < |rows| ==> rows[i].unityName != name
    ensures GetFloat(ApplyAll(s, textures, gltfMtoon, rows).value, name) == GetFloat(s, name)
    ensures ApplyAll(s, textures, gltfMtoon, rows).value.renderQueue == s.renderQueue
    ensures ApplyAll(s, textures, gltfMtoon, rows).value.shader == s.shader
  {
    if rows != [] {
      var init := rows[..|rows| - 1];
      ApplyAllKeepsFloat(s, textures, gltfMtoon, init, name);
      var t := ApplyAll(s, textures, gltfMtoon, init).value;
      PropertyStepLocal(t, textures, gltfMtoon, rows[|rows| - 1]);
      var m := ApplyAll(s, textures, gltfMtoon, rows).value;
      LocalFloatKept(t, m, rows[|rows| - 1].unityName, name);
    }
  }

  lemma LocalFloatKept(s: MaterialState, m: MaterialState, written: string, name: string)
    requires Local(s, m, written) && written != name
    ensures GetFloat(m, name) == GetFloat(s, name)
  {
    assert name in m.floats <==> name in m.floats - {written};
    assert name in s.floats <==> name in s.floats - {written};
    if name in m.floats {
      assert m.floats[name] == (m.floats - {written})[name];
      assert s.floats[name] == (s.floats - {written})[name];
    }
  }

  /** The table loop of `HandleInternal`. */
  method ApplyProperties(textures: seq<Option<Texture>>, material: Material, gltfMtoon: Dictionary, rows: seq<Row>) returns (r: Run<()>)
    modifies material
    ensures r.Fault? <==> ApplyAll(old(material.State()), textures, gltfMtoon, rows).Fault?
    ensures r.Ok? ==> material.State() == ApplyAll(old(material.State()), textures, gltfMtoon, rows).value
  {
    ghost var s0 := material.State();
    var nProperties := |rows|;
    var i := 0;
    while i < nProperties
      invariant 0 <= i <= nProperties
      invariant ApplyAll(s0, textures, gltfMtoon, rows[..i]) == Ok(material.State())
    {
      assert rows[..i + 1][..i] == rows[..i];
      var step := TryApplyProperty(textures, material, gltfMtoon, rows[i]);
      if step.Fault? {
        ApplyAllFaultStays(s0, textures, gltfMtoon, rows, i + 1);
        return Fault;
      }
      i := i + 1;
    }
    assert rows[..nProperties] == rows;
    r := Ok(());
  }

  // ---------------------------------------------------------------------
  // Render mode.

  const UNITY_SRC_BLEND: string := "_M_SrcBlend"
  const UNITY_DST_BLEND: string := "_M_DstBlend"
  const UNITY_ALPHA_TO_MASK: string := "_M_AlphaToMask"
  const UNITY_ZWRITE: string := "_M_ZWrite"
  const UNITY_CULL_MODE: string := "_M_CullMode"

  /** The alpha mode: 1 for "MASK", 2 for "BLEND", 0 for anything else. */
  function AlphaMode(mainDefinition: Dictionary): (r: int)
    ensures r == (if mainDefinition.Keys >= {"alphaMode"} && mainDefinition["alphaMode"] == Str("MASK") then 1
                  else if mainDefinition.Keys >= {"alphaMode"} && mainDefinition["alphaMode"] == Str("BLEND") then 2
                  else 0)
  {
    match TryGetValue(mainDefinition, "alphaMode", TString)
    case None => 0
    case Some(t) => if t.s == "MASK" then 1 else if t.s == "BLEND" then 2 else 0
  }

  /** The number under a key, cast to `int`, or 0. */
  function OptInt(d: Dictionary, key: string): int
  {
    Document.DictOptInt(d, key, 0)
  }

  /** The render type tag, blend factors, depth write and alpha-to-mask
      for an alpha mode (0 opaque, 1 mask, otherwise blend). */
  function ModeFlags(s: MaterialState, alphaMode: int, zWrite: int): MaterialState
  {
    var renderType := if alphaMode == 0 then "Opaque" else if alphaMode == 1 then "TransparentCutout" else "Transparent";
    var noBlend := alphaMode == 0 || alphaMode == 1;
    WithBlend(WithTag(s, "RenderType", renderType),
              if noBlend then BLEND_ONE else BLEND_SRC_ALPHA,
              if noBlend then BLEND_ZERO else BLEND_ONE_MINUS_SRC_ALPHA,
              if noBlend then 1 else zWrite,
              if alphaMode == 1 then 1 else 0)
  }

  /** The four integer properties `SetupRenderingMode` writes. */
  function WithBlend(s: MaterialState, srcBlend: int, dstBlend: int, zWrite: int, alphaToMask: int): MaterialState
  {
    WithInt(WithInt(WithInt(WithInt(s, UNITY_SRC_BLEND, srcBlend), UNITY_DST_BLEND, dstBlend), UNITY_ZWRITE, zWrite),
            UNITY_ALPHA_TO_MASK, alphaToMask)
  }

  /** The render queue for an alpha mode, the depth write and the offset. */
  function ModeQueue(alphaMode: int, zWrite: int, renderQueueOffset: int): int
  {
    if alphaMode == 0 then QUEUE_GEOMETRY
    else if alphaMode == 1 then QUEUE_ALPHA_TEST
    else if zWrite == 0 then QUEUE_TRANSPARENT + Int32.Clamp(renderQueueOffset, -9, 0)
    else QUEUE_GEOMETRY_LAST + 1 + Int32.Clamp(renderQueueOffset, 0, 9)
  }

  /** What `SetupRenderingMode` leaves. */
  function RenderingModeStep(s: MaterialState, mainDefinition: Dictionary, extensionDefinition: Dictionary): MaterialState
  {
    var zWrite := OptInt(extensionDefinition, "transparentWithZWrite");
    var renderQueueOffset := OptInt(extensionDefinition, "renderQueueOffsetNumber");
    ModeFlags(s, AlphaMode(mainDefinition), zWrite).(renderQueue := ModeQueue(AlphaMode(mainDefinition), zWrite, renderQueueOffset))
  }

  /** The render queue table: opaque 2000, mask 2450, blend without depth
      write 2991..3000 and blend with depth write 2501..2510, the offset
      clamped into those windows. */
  lemma RenderQueueSpec(s: MaterialState, mainDefinition: Dictionary, extensionDefinition: Dictionary)
    ensures var m := RenderingModeStep(s, mainDefinition, extensionDefinition);
      var zWrite := OptInt(extensionDefinition, "transparentWithZWrite");
      var offset := OptInt(extensionDefinition, "renderQueueOffsetNumber");
      && (AlphaMode(mainDefinition) == 0 ==> m.renderQueue == 2000)
      && (AlphaMode(mainDefinition) == 1 ==> m.renderQueue == 2450)
      && (AlphaMode(mainDefinition) == 2 && zWrite == 0 ==>
            m.renderQueue == 3000 + Int32.Clamp(offset, -9, 0) && 2991 <= m.renderQueue <= 3000)
      && (AlphaMode(mainDefinition) == 2 && zWrite != 0 ==>
            m.renderQueue == 2501 + Int32.Clamp(offset, 0, 9) && 2501 <= m.renderQueue <= 2510)
      && m.shader == s.shader && m.keywords == s.keywords && m.textures == s.textures
  {
    var zWrite := OptInt(extensionDefinition, "transparentWithZWrite");
    var offset := OptInt(extensionDefinition, "renderQueueOffsetNumber");
    ModeQueueWindows(AlphaMode(mainDefinition), zWrite, offset);
    ModeFlagsFrame(s, AlphaMode(mainDefinition), zWrite);
  }

  lemma ModeQueueWindows(alphaMode: int, zWrite: int, offset: int)
    ensures alphaMode == 0 ==> ModeQueue(alphaMode, zWrite, offset) == 2000
    ensures alphaMode == 1 ==> ModeQueue(alphaMode, zWrite, offset) == 2450
    ensures alphaMode == 2 && zWrite == 0 ==>
      ModeQueue(alphaMode, zWrite, offset) == 3000 + Int32.Clamp(offset, -9, 0) && 2991 <= ModeQueue(alphaMode, zWrite, offset) <= 3000
    ensures alphaMode == 2 && zWrite != 0 ==>
      ModeQueue(alphaMode, zWrite, offset) == 2501 + Int32.Clamp(offset, 0, 9) && 2501 <= ModeQueue(alphaMode, zWrite, offset) <= 2510
  {
  }

  lemma ModeFlagsFrame(s: MaterialState, alphaMode: int, zWrite: int)
    ensures ModeFlags(s, alphaMode, zWrite).shader == s.shader
    ensures ModeFlags(s, alphaMode, zWrite).keywords == s.keywords
    ensures ModeFlags(s, alphaMode, zWrite).textures == s.textures
  {
  }

  /** Depth write and alpha-to-mask: on for opaque, alpha-to-mask for
      mask, the extension's depth write for blend. */
  lemma RenderFlagsSpec(s: MaterialState, mainDefinition: Dictionary, extensionDefinition: Dictionary)
    ensures var m := RenderingModeStep(s, mainDefinition, extensionDefinition);
      && (AlphaMode(mainDefinition) == 0 ==> m.floats[UNITY_ZWRITE] == 1.0 && m.floats[UNITY_ALPHA_TO_MASK] == 0.0)
      && (AlphaMode(mainDefinition) == 1 ==> m.floats[UNITY_ZWRITE] == 1.0 && m.floats[UNITY_ALPHA_TO_MASK] == 1.0)
      && (AlphaMode(mainDefinition) == 2 ==>
            m.floats[UNITY_ZWRITE] == OptInt(extensionDefinition, "transparentWithZWrite") as real
            && m.floats[UNITY_ALPHA_TO_MASK] == 0.0)
  {
  }

  /** `SetupRenderingMode`. */
  method SetupRenderingMode(material: Material, mainDefinition: Dictionary, extensionDefinition: Dictionary)
    modifies material
    ensures material.State() == RenderingModeStep(old(material.State()), mainDefinition, extensionDefinition)
  {
    var alphaMode := 0;
    var alphaModeToken := TryGetValue(mainDefinition, "alphaMode", TString);
    if alphaModeToken.Some? {
      var mode := alphaModeToken.value.s;
      if mode == "MASK" {
        alphaMode := 1;
      }
      if mode == "BLEND" {
        alphaMode := 2;
      }
    }
    var zWrite := 0;
    var zWriteToken := TryGetValue(extensionDefinition, "transparentWithZWrite", TDouble);
    if zWriteToken.Some? {
      zWrite := Int32.DoubleToInt(zWriteToken.value.n);
    }
    var renderQueueOffset := 0;
    var offsetToken := TryGetValue(extensionDefinition, "renderQueueOffsetNumber", TDouble);
    if offsetToken.Some? {
      renderQueueOffset := Int32.DoubleToInt(offsetToken.value.n);
    }

    ApplyRenderingMode(material, alphaMode, zWrite, renderQueueOffset);
  }

  /** The branch of `SetupRenderingMode` on the alpha mode. */
  method ApplyRenderingMode(material: Material, alphaMode: int, zWrite: int, renderQueueOffset: int)
    modifies material
    ensures material.State() == ModeFlags(old(material.State()), alphaMode, zWrite).(renderQueue := ModeQueue(alphaMode, zWrite, renderQueueOffset))
  {
    var renderQueueOffset := renderQueueOffset;
    if alphaMode == 0 {
      material.SetOverrideTag("RenderType", "Opaque");
      material.SetInt(UNITY_SRC_BLEND, BLEND_ONE);
      material.SetInt(UNITY_DST_BLEND, BLEND_ZERO);
      material.SetInt(UNITY_ZWRITE, 1);
      material.SetInt(UNITY_ALPHA_TO_MASK, 0);
      material.SetRenderQueue(QUEUE_GEOMETRY);
    } else if alphaMode == 1 {
      material.SetOverrideTag("RenderType", "TransparentCutout");
      material.SetInt(UNITY_SRC_BLEND, BLEND_ONE);
      material.SetInt(UNITY_DST_BLEND, BLEND_ZERO);
      material.SetInt(UNITY_ZWRITE, 1);
      material.SetInt(UNITY_ALPHA_TO_MASK, 1);
      material.SetRenderQueue(QUEUE_ALPHA_TEST);
    } else {
      material.SetOverrideTag("RenderType", "Transparent");
      material.SetInt(UNITY_SRC_BLEND, BLEND_SRC_ALPHA);
      material.SetInt(UNITY_DST_BLEND, BLEND_ONE_MINUS_SRC_ALPHA);
      material.SetInt(UNITY_ZWRITE, zWrite);
      material.SetInt(UNITY_ALPHA_TO_MASK, 0);
      if zWrite == 0 {
        renderQueueOffset := Int32.Clamp(renderQueueOffset, -9, 0);
        material.SetRenderQueue(QUEUE_TRANSPARENT + renderQueueOffset);
      } else {
        renderQueueOffset := Int32.Clamp(renderQueueOffset, 0, 9);
        material.SetRenderQueue(QUEUE_GEOMETRY_LAST + 1 + renderQueueOffset);
      }
    }
  }

  // ---------------------------------------------------------------------
  // The extension handler.

  /** The steps after the table: emission and normal map keywords, depth
      write, double-sidedness, render mode. */
  function FinishStep(s: MaterialState, extensionDefinition: Dictionary, mainDefinition: Dictionary): MaterialState
  {
    RenderingModeStep(PrepareStep(s, extensionDefinition, mainDefinition), mainDefinition, extensionDefinition)
  }

  /** Emission and normal map keywords, depth write and double-sidedness. */
  function PrepareStep(s: MaterialState, extensionDefinition: Dictionary, mainDefinition: Dictionary): MaterialState
  {
    var s := if "emissiveTexture" in mainDefinition then WithKeyword(s, "_MTOON_EMISSIVEMAP", true) else s;
    var s := if "normalTexture" in mainDefinition then WithKeyword(s, "_NORMALMAP", true) else s;
    var s := match TryGetValue(extensionDefinition, "transparentWithZWrite", TDouble)
      case Some(t) => WithInt(s, "_M_ZWrite", Int32.DoubleToInt(t.n))
      case None => s;
    var s := match TryGetValue(mainDefinition, "doubleSided", TBoolean)
      case Some(t) => WithInt(s, "_DoubleSided", if t.b then 1 else 0)
      case None => s;
    s
  }

  /** The outline keyword from the outline width mode read back from the
      material: 1 is world coordinates, 2 screen coordinates. */
  function OutlineStep(s: MaterialState): MaterialState
  {
    var currentOutlineMode := Int32.DoubleToInt(GetFloat(s, "_OutlineWidthMode"));
    if currentOutlineMode == 1 then WithKeyword(s, "_MTOON_OUTLINE_WORLD", true)
    else if currentOutlineMode == 2 then WithKeyword(s, "_MTOON_OUTLINE_SCREEN", true)
    else s
  }

  /** What `HandleInternal` makes of the material: the template's shader,
      the whole property table, the finishing steps and the outline
      keyword. */
  function MtoonFrom(s: MaterialState, extensionDefinition: Dictionary, mainDefinition: Dictionary,
                     textures: seq<Option<Texture>>, templateShader: Shader): Run<MaterialState>
  {
    var s := if s.shader != templateShader then WithShader(s, templateShader) else s;
    match ApplyAll(s, textures, extensionDefinition, MTOON_PROPERTIES)
    case Fault => Fault
    case Ok(t) => Ok(OutlineStep(FinishStep(t, extensionDefinition, mainDefinition)))
  }

  /** `HandleInternal`. */
  method HandleInternal(material: Material, extensionDefinition: Dictionary, mainDefinition: Dictionary,
                        textures: seq<Option<Texture>>, templateShader: Shader) returns (r: Run<()>)
    modifies material
    ensures r.Fault? <==> MtoonFrom(old(material.State()), extensionDefinition, mainDefinition, textures, templateShader).Fault?
    ensures r.Ok? ==> material.State() == MtoonFrom(old(material.State()), extensionDefinition, mainDefinition, textures, templateShader).value
  {
    if material.shader != templateShader {
      material.SetShader(templateShader);
    }
    r := ApplyProperties(textures, material, extensionDefinition, MTOON_PROPERTIES);
    if r.Fault? {
      return;
    }
    Finish(material, extensionDefinition, mainDefinition);
  }

  /** The steps of `HandleInternal` after the table. */
  method Finish(material: Material, extensionDefinition: Dictionary, mainDefinition: Dictionary)
    modifies material
    ensures material.State() == OutlineStep(FinishStep(old(material.State()), extensionDefinition, mainDefinition))
  {
    Prepare(material, extensionDefinition, mainDefinition);
    SetupRenderingMode(material, mainDefinition, extensionDefinition);
    SetOutlineKeyword(material);
  }

  /** The keyword and flag writes before `SetupRenderingMode`. */
  method Prepare(material: Material, extensionDefinition: Dictionary, mainDefinition: Dictionary)
    modifies material
    ensures material.State() == PrepareStep(old(material.State()), extensionDefinition, mainDefinition)
  {
    if "emissiveTexture" in mainDefinition {
      material.EnableKeyword("_MTOON_EMISSIVEMAP");
    }
    if "normalTexture" in mainDefinition {
      material.EnableKeyword("_NORMALMAP");
    }
    var zWriteModeToken := TryGetValue(extensionDefinition, "transparentWithZWrite", TDouble);
    if zWriteModeToken.Some? {
      material.SetInt("_M_ZWrite", Int32.DoubleToInt(zWriteModeToken.value.n));
    }
    var doubleSidedToken := TryGetValue(mainDefinition, "doubleSided", TBoolean);
    if doubleSidedToken.Some? {
      material.SetInt("_DoubleSided", if doubleSidedToken.value.b then 1 else 0);
    }
  }

  /** The outline keyword, from the mode read back from the material. */
  method SetOutlineKeyword(material: Material)
    modifies material
    ensures material.State() == OutlineStep(old(material.State()))
  {
    var currentOutlineMode := Int32.DoubleToInt(GetFloat(material.State(), "_OutlineWidthMode"));
    if currentOutlineMode == 1 {
      material.EnableKeyword("_MTOON_OUTLINE_WORLD");
    } else if currentOutlineMode == 2 {
      material.EnableKeyword("_MTOON_OUTLINE_SCREEN");
    }
  }
}
