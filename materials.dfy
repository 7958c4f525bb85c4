/** Engine materials and textures as the loader sees them, and the
    glTF material translation of `CreateMaterialFrom` with its two
    render-state presets, `MaterialSetAsFade` and `MaterialSetAsCutout`.

    A material is its name, its shader, its render queue and a set of
    named properties (floats, colors, textures with offset and scale),
    plus a keyword set and a tag map.  Numbers are exact reals: the
    narrowing to single precision is not represented. */
module Materials {
  import opened Wrappers
  import opened Json
  import Document
  import Int32
  import Bytes
  import Textures

  datatype Color = Color(r: real, g: real, b: real, a: real)
  datatype Vector2 = Vector2(x: real, y: real)

  datatype TextureFormat = RGBA32 | BGRA32 | DXT1 | DXT5 | BC5 | BC7

  /** How Unity lays out the raw data of each format. */
  function LayoutOf(f: TextureFormat): Textures.Layout
  {
    match f
    case RGBA32 => Textures.Pixels32
    case BGRA32 => Textures.Pixels32
    case DXT1 => Textures.Blocks8
    case _ => Textures.Blocks16
  }

  /** A `Texture2D` built from raw data. */
  datatype Texture = Texture(name: string, width: int, height: int, format: TextureFormat, mipmaps: bool, data: seq<Bytes.byte>)

  /** A shader and the render queue it declares. */
  datatype Shader = Shader(name: string, queue: int)

  /** Everything about a material that the loader reads or writes. */
  datatype MaterialState = MaterialState(
    name: string,
    shader: Shader,
    renderQueue: int,
    floats: map<string, real>,
    colors: map<string, Color>,
    textures: map<string, Option<Texture>>,
    offsets: map<string, Vector2>,
    scales: map<string, Vector2>,
    keywords: set<string>,
    tags: map<string, string>,
    emissionGiNone: bool)

  // ---------------------------------------------------------------------
  // The engine's material operations, on values.

  function WithFloat(s: MaterialState, property: string, value: real): MaterialState
  {
    s.(floats := s.floats[property := value])
  }

  /** `SetInt` stores the integer as a float property. */
  function WithInt(s: MaterialState, property: string, value: int): MaterialState
  {
    WithFloat(s, property, value as real)
  }

  function WithColor(s: MaterialState, property: string, value: Color): MaterialState
  {
    s.(colors := s.colors[property := value])
  }

  function WithTexture(s: MaterialState, property: string, value: Option<Texture>): MaterialState
  {
    s.(textures := s.textures[property := value])
  }

  function WithKeyword(s: MaterialState, keyword: string, enabled: bool): MaterialState
  {
    s.(keywords := if enabled then s.keywords + {keyword} else s.keywords - {keyword})
  }

  function WithTag(s: MaterialState, tag: string, value: string): MaterialState
  {
    s.(tags := s.tags[tag := value])
  }

  /** Assigning a shader makes the material use that shader's own render
      queue. */
  function WithShader(s: MaterialState, shader: Shader): MaterialState
  {
    s.(shader := shader, renderQueue := shader.queue)
  }

  /** `GetFloat`: a property never set reads as 0. */
  function GetFloat(s: MaterialState, property: string): real
  {
    if property in s.floats then s.floats[property] else 0.0
  }

  /** A material object.  Its methods are the engine calls the loader
      makes; each one changes exactly the part of the state it names. */
  class Material {
    var name: string
    var shader: Shader
    var renderQueue: int
    var floats: map<string, real>
    var colors: map<string, Color>
    var textures: map<string, Option<Texture>>
    var offsets: map<string, Vector2>
    var scales: map<string, Vector2>
    var keywords: set<string>
    var tags: map<string, string>
    var emissionGiNone: bool

    function State(): MaterialState
      reads this
    {
      MaterialState(name, shader, renderQueue, floats, colors, textures, offsets, scales, keywords, tags, emissionGiNone)
    }

    /** A fresh copy of a template material. */
    constructor (template: MaterialState)
      ensures State() == template
    {
      name, shader, renderQueue := template.name, template.shader, template.renderQueue;
      floats, colors, textures := template.floats, template.colors, template.textures;
      offsets, scales := template.offsets, template.scales;
      keywords, tags, emissionGiNone := template.keywords, template.tags, template.emissionGiNone;
    }

    method SetFloat(property: string, value: real)
      modifies this
      ensures State() == WithFloat(old(State()), property, value)
    {
      floats := floats[property := value];
    }

    method SetInt(property: string, value: int)
      modifies this
      ensures State() == WithInt(old(State()), property, value)
    {
      floats := floats[property := value as real];
    }

    method SetColor(property: string, value: Color)
      modifies this
      ensures State() == WithColor(old(State()), property, value)
    {
      colors := colors[property := value];
    }

    method SetTexture(property: string, value: Option<Texture>)
      modifies this
      ensures State() == WithTexture(old(State()), property, value)
    {
      textures := textures[property := value];
    }

    method SetTextureOffset(property: string, value: Vector2)
      modifies this
      ensures State() == old(State()).(offsets := old(offsets)[property := value])
    {
      offsets := offsets[property := value];
    }

    method SetTextureScale(property: string, value: Vector2)
      modifies this
      ensures State() == old(State()).(scales := old(scales)[property := value])
    {
      scales := scales[property := value];
    }

    method EnableKeyword(keyword: string)
      modifies this
      ensures State() == WithKeyword(old(State()), keyword, true)
    {
      keywords := keywords + {keyword};
    }

    method DisableKeyword(keyword: string)
      modifies this
      ensures State() == WithKeyword(old(State()), keyword, false)
    {
      keywords := keywords - {keyword};
    }

    method SetOverrideTag(tag: string, value: string)
      modifies this
      ensures State() == WithTag(old(State()), tag, value)
    {
      tags := tags[tag := value];
    }

    method SetShader(s: Shader)
      modifies this
      ensures State() == WithShader(old(State()), s)
    {
      shader, renderQueue := s, s.queue;
    }

    method SetRenderQueue(queue: int)
      modifies this
      ensures State() == old(State()).(renderQueue := queue)
    {
      renderQueue := queue;
    }

    method SetName(n: string)
      modifies this
      ensures State() == old(State()).(name := n)
    {
      name := n;
    }

    method SetEmissionGiNone()
      modifies this
      ensures State() == old(State()).(emissionGiNone := true)
    {
      emissionGiNone := true;
    }
  }

  // ---------------------------------------------------------------------
  // Render-state presets.

  /** `UnityEngine.Rendering.BlendMode` values. */
  const BLEND_ZERO: int := 0
  const BLEND_ONE: int := 1
  const BLEND_SRC_ALPHA: int := 5
  const BLEND_ONE_MINUS_SRC_ALPHA: int := 10

  /** `UnityEngine.Rendering.RenderQueue` values. */
  const QUEUE_GEOMETRY: int := 2000
  const QUEUE_ALPHA_TEST: int := 2450
  const QUEUE_GEOMETRY_LAST: int := 2500
  const QUEUE_TRANSPARENT: int := 3000

  /** The state `MaterialSetAsFade` leaves: alpha-blended, no depth
      write, transparent queue. */
  function Fade(s: MaterialState): (r: MaterialState)
    ensures r.shader == s.shader && r.renderQueue == QUEUE_TRANSPARENT
  {
    var s := WithTag(s, "RenderType", "Transparent");
    var s := WithKeyword(s, "_ALPHATEST_ON", false);
    var s := WithKeyword(s, "_ALPHABLEND_ON", true);
    var s := WithKeyword(s, "_ALPHAPREMULTIPLY_ON", false);
    var s := WithInt(s, "_SrcBlend", BLEND_SRC_ALPHA);
    var s := WithInt(s, "_DstBlend", BLEND_ONE_MINUS_SRC_ALPHA);
    var s := WithInt(s, "_ZWrite", 0);
    s.(renderQueue := QUEUE_TRANSPARENT)
  }

  /** The state `MaterialSetAsCutout` leaves: alpha-tested at the given
      threshold, opaque blending, depth write, alpha-test queue. */
  function Cutout(s: MaterialState, threshold: real): (r: MaterialState)
    ensures r.shader == s.shader && r.renderQueue == QUEUE_ALPHA_TEST
  {
    var s := WithTag(s, "RenderType", "TransparentCutout");
    var s := WithFloat(s, "_Cutoff", threshold);
    var s := WithInt(s, "_SrcBlend", BLEND_ONE);
    var s := WithInt(s, "_DstBlend", BLEND_ZERO);
    var s := WithInt(s, "_ZWrite", 1);
    var s := WithKeyword(s, "_ALPHATEST_ON", true);
    var s := WithKeyword(s, "_ALPHABLEND_ON", false);
    var s := WithKeyword(s, "_ALPHAPREMULTIPLY_ON", false);
    s.(renderQueue := QUEUE_ALPHA_TEST)
  }

  method MaterialSetAsFade(material: Material)
    modifies material
    ensures material.State() == Fade(old(material.State()))
  {
    material.SetOverrideTag("RenderType", "Transparent");
    material.DisableKeyword("_ALPHATEST_ON");
    material.EnableKeyword("_ALPHABLEND_ON");
    material.DisableKeyword("_ALPHAPREMULTIPLY_ON");
    material.SetInt("_SrcBlend", BLEND_SRC_ALPHA);
    material.SetInt("_DstBlend", BLEND_ONE_MINUS_SRC_ALPHA);
    material.SetInt("_ZWrite", 0);
    material.SetRenderQueue(QUEUE_TRANSPARENT);
  }

  method MaterialSetAsCutout(material: Material, threshold: real)
    modifies material
    ensures material.State() == Cutout(old(material.State()), threshold)
  {
    material.SetOverrideTag("RenderType", "TransparentCutout");
    material.SetFloat("_Cutoff", threshold);
    material.SetInt("_SrcBlend", BLEND_ONE);
    material.SetInt("_DstBlend", BLEND_ZERO);
    material.SetInt("_ZWrite", 1);
    material.EnableKeyword("_ALPHATEST_ON");
    material.DisableKeyword("_ALPHABLEND_ON");
    material.DisableKeyword("_ALPHAPREMULTIPLY_ON");
    material.SetRenderQueue(QUEUE_ALPHA_TEST);
  }

  /** What the fade preset means: the transparent render type and queue,
      source-alpha blending without depth write, only the alpha-blend
      keyword of the three; the shader, the name, the colors and the
      textures stay, and so does every float it does not name. */
  lemma FadeSpec(s: MaterialState)
    ensures var f := Fade(s);
      f.renderQueue == 3000 && f.tags["RenderType"] == "Transparent" &&
      f.floats["_SrcBlend"] == 5.0 && f.floats["_DstBlend"] == 10.0 && f.floats["_ZWrite"] == 0.0 &&
      "_ALPHABLEND_ON" in f.keywords && "_ALPHATEST_ON" !in f.keywords && "_ALPHAPREMULTIPLY_ON" !in f.keywords &&
      f.keywords - {"_ALPHABLEND_ON"} == s.keywords - {"_ALPHABLEND_ON", "_ALPHATEST_ON", "_ALPHAPREMULTIPLY_ON"} &&
      f.shader == s.shader && f.name == s.name && f.colors == s.colors && f.textures == s.textures &&
      (forall p :: p in s.floats && p !in {"_SrcBlend", "_DstBlend", "_ZWrite"} ==> p in f.floats && f.floats[p] == s.floats[p])
  {
    FadeFields(s);
  }

  /** Applying the fade preset twice is applying it once. */
  lemma FadeIdempotent(s: MaterialState)
    ensures Fade(Fade(s)) == Fade(s)
  {
    FadeFields(s);
    FadeFields(Fade(s));
    ThreeUpdatesOverwrite(s.floats, "_SrcBlend", "_DstBlend", "_ZWrite", 5.0, 10.0, 0.0, 5.0, 10.0, 0.0);
  }

  /** What the cutout preset means. */
  lemma CutoutSpec(s: MaterialState, threshold: real)
    ensures var c := Cutout(s, threshold);
      c.renderQueue == 2450 && c.tags["RenderType"] == "TransparentCutout" && c.floats["_Cutoff"] == threshold &&
      c.floats["_SrcBlend"] == 1.0 && c.floats["_DstBlend"] == 0.0 && c.floats["_ZWrite"] == 1.0 &&
      "_ALPHATEST_ON" in c.keywords && "_ALPHABLEND_ON" !in c.keywords && "_ALPHAPREMULTIPLY_ON" !in c.keywords &&
      c.shader == s.shader && c.colors == s.colors && c.textures == s.textures
  {
  }

  lemma FadeFields(s: MaterialState)
    ensures Fade(s) == s.(tags := s.tags["RenderType" := "Transparent"],
                          keywords := s.keywords - {"_ALPHATEST_ON", "_ALPHAPREMULTIPLY_ON"} + {"_ALPHABLEND_ON"},
                          floats := s.floats["_SrcBlend" := 5.0]["_DstBlend" := 10.0]["_ZWrite" := 0.0],
                          renderQueue := QUEUE_TRANSPARENT)
  {
  }

  lemma CutoutFields(s: MaterialState, threshold: real)
    ensures Cutout(s, threshold) ==
      s.(tags := s.tags["RenderType" := "TransparentCutout"],
         keywords := s.keywords - {"_ALPHABLEND_ON", "_ALPHAPREMULTIPLY_ON"} + {"_ALPHATEST_ON"},
         floats := s.floats["_Cutoff" := threshold]["_SrcBlend" := 1.0]["_DstBlend" := 0.0]["_ZWrite" := 1.0],
         renderQueue := QUEUE_ALPHA_TEST)
  {
  }

  lemma ThreeUpdatesOverwrite<K, V>(f: map<K, V>, a: K, b: K, c: K, x1: V, y1: V, z1: V, x2: V, y2: V, z2: V)
    ensures f[a := x1][b := y1][c := z1][a := x2][b := y2][c := z2] == f[a := x2][b := y2][c := z2]
  {
  }

  /** A fade applied after a cutout overrides it everywhere except in the
      threshold the cutout leaves behind. */
  lemma FadeOverridesCutout(s: MaterialState, threshold: real)
    ensures Fade(Cutout(s, threshold)) == Fade(WithFloat(s, "_Cutoff", threshold))
  {
    var c := Cutout(s, threshold);
    var w := WithFloat(s, "_Cutoff", threshold);
    CutoutFields(s, threshold);
    FadeFields(c);
    FadeFields(w);
    ThreeUpdatesOverwrite(s.floats["_Cutoff" := threshold], "_SrcBlend", "_DstBlend", "_ZWrite", 1.0, 0.0, 1.0, 5.0, 10.0, 0.0);
    UpdateOverwrite(s.tags, "RenderType", "TransparentCutout", "Transparent");
    PresetKeywords(s.keywords, "_ALPHABLEND_ON", "_ALPHAPREMULTIPLY_ON", "_ALPHATEST_ON");
  }

  lemma UpdateOverwrite<K, V>(m: map<K, V>, k: K, v1: V, v2: V)
    ensures m[k := v1][k := v2] == m[k := v2]
  {
  }

  /** Switching the keywords to one preset and then to another is
      switching them to the second one. */
  lemma PresetKeywords<T>(keywords: set<T>, blend: T, premultiply: T, test: T)
    ensures keywords - {blend, premultiply} + {test} - {test, premultiply} + {blend}
         == keywords - {test, premultiply} + {blend}
  {
  }

  // ---------------------------------------------------------------------
  // glTF material translation.

  /** The shaders the loader is configured with. */
  datatype ShaderSet = ShaderSet(unlit: Shader, unlitTransparent: Shader, unlitCutout: Shader)

  /** `MaterialInfoGetTextureIfAvailable`, texture-info part: the texture
      record under `textureKey` when it is a dictionary. */
  function TextureInfo(info: Dictionary, textureKey: string): (r: Option<Dictionary>)
    ensures r.Some? <==> textureKey in info && info[textureKey].Dict?
  {
    match TryGetValue(info, textureKey, TDataDictionary)
    case Some(t) => Some(t.fields)
    case None => None
  }

  /** The texture it returns: the image whose index the record holds, or
      null when the record, its numeric index or the image is missing,
      or when the index is out of range. */
  function TextureIfAvailable(info: Dictionary, textureKey: string, images: seq<Option<Texture>>): (r: Option<Texture>)
    ensures TextureInfo(info, textureKey).None? ==> r.None?
    ensures r.Some? ==> r in images
    ensures forall i :: 0 <= i < |images| ==>
      (TextureInfo(info, textureKey).Some? &&
       "index" in TextureInfo(info, textureKey).value && TextureInfo(info, textureKey).value["index"].Number? &&
       Int32.DoubleToInt(TextureInfo(info, textureKey).value["index"].n) == i) ==> r == images[i]
  {
    match TextureInfo(info, textureKey)
    case None => None
    case Some(textureInfo) =>
      match TryGetValue(textureInfo, "index", TDouble)
      case None => None
      case Some(index) =>
        var i := Int32.DoubleToInt(index.n);
        if i < 0 || i >= |images| then None else images[i]
  }

  /** `DataListToColor` and `DataListToColorRGB`: the explicit casts of
      the first four (or three, with alpha 1) elements, which throw on a
      missing element or a non-number. */
  function ListToColor(list: seq<Token>, withAlpha: bool): (r: Run<Color>)
    ensures r.Ok? <==>
      (|list| >= (if withAlpha then 4 else 3) &&
       forall i :: 0 <= i < (if withAlpha then 4 else 3) ==> list[i].Number?)
    ensures r.Ok? ==>
      (r.value.r == list[0].n && r.value.g == list[1].n && r.value.b == list[2].n &&
       r.value.a == (if withAlpha then list[3].n else 1.0))
  {
    var n := if withAlpha then 4 else 3;
    if |list| < n || !(forall i :: 0 <= i < n ==> list[i].Number?) then Fault
    else Ok(Color(list[0].n, list[1].n, list[2].n, if withAlpha then list[3].n else 1.0))
  }

  /** The unlit extension is present. */
  predicate IsUnlit(info: Dictionary)
  {
    match TryGetValue(info, "extensions", TDataDictionary)
    case Some(ext) => "KHR_materials_unlit" in ext.fields
    case None => false
  }

  /** The alpha-mode step: BLEND fades (an unlit material first takes the
      transparent unlit shader), MASK cuts out at `alphaCutoff`
      (default 0.5; an unlit material first takes the cutout shader);
      anything else changes nothing. */
  function AlphaModeStep(s: MaterialState, info: Dictionary, unlit: bool, shaders: ShaderSet): MaterialState
  {
    var alphaMode := Document.DictOptString(info, "alphaMode", "");
    if alphaMode == "BLEND" then
      Fade(if unlit then WithShader(s, shaders.unlitTransparent) else s)
    else if alphaMode == "MASK" then
      Cutout(if unlit then WithShader(s, shaders.unlitCutout) else s, Document.DictOptFloat(info, "alphaCutoff", 0.5))
    else s
  }

  /** The metallic-roughness step: base color texture, base color factor
      (a four-number list; an alpha below 1 switches to fade), metallic
      value, metallic-roughness texture, and glossiness = 1 - roughness. */
  function PbrStep(s: MaterialState, pbr: Dictionary, images: seq<Option<Texture>>): (r: Run<MaterialState>)
    ensures r.Ok? ==> r.value.shader == s.shader
    ensures r.Ok? ==> r.value.renderQueue == (if TranslucentPbr(pbr) then QUEUE_TRANSPARENT else s.renderQueue)
  {
    match BaseColorStep(AlbedoStep(s, pbr, images), pbr)
    case Fault => Fault
    case Ok(t) => Ok(MetalStep(t, pbr, images))
  }

  function AlbedoStep(s: MaterialState, pbr: Dictionary, images: seq<Option<Texture>>): (r: MaterialState)
    ensures r.shader == s.shader && r.renderQueue == s.renderQueue
  {
    var albedo := TextureIfAvailable(pbr, "baseColorTexture", images);
    if albedo.Some? then WithTexture(s, "_MainTex", albedo) else s
  }

  function BaseColorStep(s: MaterialState, pbr: Dictionary): (r: Run<MaterialState>)
    ensures r.Ok? ==> r.value.shader == s.shader
    ensures r.Ok? ==> r.value.renderQueue == (if TranslucentPbr(pbr) then QUEUE_TRANSPARENT else s.renderQueue)
  {
    match TryGetValue(pbr, "baseColorFactor", TDataList)
    case None => Ok(s)
    case Some(colorToken) =>
      if |colorToken.items| != 4 then Ok(s)
      else match ListToColor(colorToken.items, true)
        case Fault => Fault
        case Ok(color) =>
          var s := WithColor(s, "_Color", color);
          Ok(if color.a < 1.0 then Fade(s) else s)
  }

  function MetalStep(s: MaterialState, pbr: Dictionary, images: seq<Option<Texture>>): (r: MaterialState)
    ensures r.shader == s.shader && r.renderQueue == s.renderQueue
  {
    var s := match TryGetValue(pbr, "metallic", TDouble)
      case Some(m) => WithFloat(s, "_Metallic", m.n)
      case None => s;
    var metalRough := TextureIfAvailable(pbr, "metallicRoughnessTexture", images);
    var s := if metalRough.Some? then WithTexture(s, "_MetallicGlossMap", metalRough) else s;
    var roughness := Document.DictOptFloat(pbr, "roughnessFactor", 1.0);
    WithFloat(WithFloat(s, "_Glossiness", 1.0 - roughness), "_GlossMapScale", 1.0 - roughness)
  }

  /** The emission step: an emissive factor list sets the emission color
      (three numbers, alpha 1) and an emissive texture the emission map,
      each enabling emission. */
  function EmissionStep(s: MaterialState, info: Dictionary, images: seq<Option<Texture>>): (r: Run<MaterialState>)
    ensures r.Ok? ==> r.value.shader == s.shader && r.value.renderQueue == s.renderQueue
  {
    var factored :=
      match TryGetValue(info, "emissiveFactor", TDataList)
      case None => Ok(s)
      case Some(t) =>
        match ListToColor(t.items, false)
        case Fault => Fault
        case Ok(c) => Ok(WithColor(WithKeyword(s, "_EMISSION", true).(emissionGiNone := true), "_EmissionColor", c));
    match factored
    case Fault => Fault
    case Ok(s) =>
      var emission := TextureIfAvailable(info, "emissiveTexture", images);
      if emission.None? then Ok(s)
      else Ok(WithTexture(WithKeyword(s, "_EMISSION", true).(emissionGiNone := true), "_EmissionMap", emission))
  }

  /** What `CreateMaterialFrom` makes of a glTF material record, starting
      from a copy of the base material. */
  function MaterialFrom(base: MaterialState, info: Dictionary, shaders: ShaderSet, images: seq<Option<Texture>>): Run<MaterialState>
  {
    var unlit := IsUnlit(info);
    var s := AlphaModeStep(HeaderStep(base, info, shaders, images), info, unlit, shaders);
    var pbred :=
      match TryGetValue(info, "pbrMetallicRoughness", TDataDictionary)
      case Some(pbr) => PbrStep(s, pbr.fields, images)
      case None => Ok(s);
    match pbred
    case Fault => Fault
    case Ok(s) => EmissionStep(s, info, images)
  }

  /** The first steps: the unlit shader, the name, the normal map. */
  function HeaderStep(base: MaterialState, info: Dictionary, shaders: ShaderSet, images: seq<Option<Texture>>): (r: MaterialState)
    ensures r.shader == (if IsUnlit(info) then shaders.unlit else base.shader)
    ensures r.renderQueue == (if IsUnlit(info) then shaders.unlit.queue else base.renderQueue)
  {
    var s := if IsUnlit(info) then WithShader(base, shaders.unlit) else base;
    var s := s.(name := Document.DictOptString(info, "name", s.name));
    var normal := TextureIfAvailable(info, "normalTexture", images);
    if normal.Some? then
      var normalInfo := TextureInfo(info, "normalTexture").value;
      WithFloat(WithTexture(WithKeyword(s, "_NORMALMAP", true), "_BumpMap", normal), "_BumpScale",
                Document.DictOptFloat(normalInfo, "scale", 1.0))
    else s
  }

  /** A fresh material built as `MaterialFrom` says, or the fault the
      casts of a malformed color list raise. */
  method CreateMaterialFrom(base: MaterialState, info: Dictionary, shaders: ShaderSet, images: seq<Option<Texture>>) returns (r: Run<Material>)
    ensures r.Fault? <==> MaterialFrom(base, info, shaders, images).Fault?
    ensures r.Ok? ==> fresh(r.value) && r.value.State() == MaterialFrom(base, info, shaders, images).value
  {
    var spec := MaterialFrom(base, info, shaders, images);
    if spec.Fault? {
      return Fault;
    }
    var mat := new Material(base);
    ApplyHeader(mat, info, shaders, images);
    ApplyAlphaMode(mat, info, IsUnlit(info), shaders);
    var pbrToken := TryGetValue(info, "pbrMetallicRoughness", TDataDictionary);
    if pbrToken.Some? {
      ApplyPbr(mat, pbrToken.value.fields, images);
    }
    ApplyEmission(mat, info, images);
    r := Ok(mat);
  }

  method ApplyHeader(mat: Material, info: Dictionary, shaders: ShaderSet, images: seq<Option<Texture>>)
    modifies mat
    ensures mat.State() == HeaderStep(old(mat.State()), info, shaders, images)
  {
    if IsUnlit(info) {
      mat.SetShader(shaders.unlit);
    }
    mat.SetName(Document.DictOptString(info, "name", mat.name));
    var normal := TextureIfAvailable(info, "normalTexture", images);
    if normal.Some? {
      var normalInfo := TextureInfo(info, "normalTexture").value;
      mat.EnableKeyword("_NORMALMAP");
      mat.SetTexture("_BumpMap", normal);
      mat.SetFloat("_BumpScale", Document.DictOptFloat(normalInfo, "scale", 1.0));
    }
  }

  method ApplyAlphaMode(mat: Material, info: Dictionary, unlit: bool, shaders: ShaderSet)
    modifies mat
    ensures mat.State() == AlphaModeStep(old(mat.State()), info, unlit, shaders)
  {
    var alphaMode := Document.DictOptString(info, "alphaMode", "");
    if alphaMode != "" {
      if alphaMode == "BLEND" {
        if unlit {
          mat.SetShader(shaders.unlitTransparent);
        }
        MaterialSetAsFade(mat);
      } else if alphaMode == "MASK" {
        if unlit {
          mat.SetShader(shaders.unlitCutout);
        }
        MaterialSetAsCutout(mat, Document.DictOptFloat(info, "alphaCutoff", 0.5));
      }
    }
  }

  method ApplyPbr(mat: Material, pbr: Dictionary, images: seq<Option<Texture>>)
    requires PbrStep(mat.State(), pbr, images).Ok?
    modifies mat
    ensures mat.State() == PbrStep(old(mat.State()), pbr, images).value
  {
    var albedo := TextureIfAvailable(pbr, "baseColorTexture", images);
    if albedo.Some? {
      mat.SetTexture("_MainTex", albedo);
    }
    ApplyBaseColor(mat, pbr);
    ApplyMetal(mat, pbr, images);
  }

  method ApplyBaseColor(mat: Material, pbr: Dictionary)
    requires BaseColorStep(mat.State(), pbr).Ok?
    modifies mat
    ensures mat.State() == BaseColorStep(old(mat.State()), pbr).value
  {
    var colorToken := TryGetValue(pbr, "baseColorFactor", TDataList);
    if colorToken.Some? {
      var colorInfo := colorToken.value.items;
      var allNumbers := Document.IsListComponentType(colorInfo, TDouble);
      if |colorInfo| == 4 && allNumbers {
        var color := ListToColor(colorInfo, true).value;
        mat.SetColor("_Color", color);
        if color.a < 1.0 {
          MaterialSetAsFade(mat);
        }
      }
    }
  }

  method ApplyMetal(mat: Material, pbr: Dictionary, images: seq<Option<Texture>>)
    modifies mat
    ensures mat.State() == MetalStep(old(mat.State()), pbr, images)
  {
    var metallic := TryGetValue(pbr, "metallic", TDouble);
    if metallic.Some? {
      mat.SetFloat("_Metallic", metallic.value.n);
    }
    var metalRough := TextureIfAvailable(pbr, "metallicRoughnessTexture", images);
    if metalRough.Some? {
      mat.SetTexture("_MetallicGlossMap", metalRough);
    }
    var roughness := Document.DictOptFloat(pbr, "roughnessFactor", 1.0);
    mat.SetFloat("_Glossiness", 1.0 - roughness);
    mat.SetFloat("_GlossMapScale", 1.0 - roughness);
  }

  method ApplyEmission(mat: Material, info: Dictionary, images: seq<Option<Texture>>)
    requires EmissionStep(mat.State(), info, images).Ok?
    modifies mat
    ensures mat.State() == EmissionStep(old(mat.State()), info, images).value
  {
    var factor := TryGetValue(info, "emissiveFactor", TDataList);
    if factor.Some? {
      mat.EnableKeyword("_EMISSION");
      mat.SetEmissionGiNone();
      mat.SetColor("_EmissionColor", ListToColor(factor.value.items, false).value);
    }
    var emission := TextureIfAvailable(info, "emissiveTexture", images);
    if emission.Some? {
      mat.EnableKeyword("_EMISSION");
      mat.SetEmissionGiNone();
      mat.SetTexture("_EmissionMap", emission);
    }
  }

  /** The base color factor is a four-number list with an alpha below 1. */
  predicate TranslucentPbr(pbr: Dictionary)
  {
    match TryGetValue(pbr, "baseColorFactor", TDataList)
    case None => false
    case Some(c) => |c.items| == 4 && ListToColor(c.items, true).Ok? && c.items[3].n < 1.0
  }

  predicate TranslucentFactor(info: Dictionary)
  {
    match TryGetValue(info, "pbrMetallicRoughness", TDataDictionary)
    case None => false
    case Some(pbr) => TranslucentPbr(pbr.fields)
  }

  lemma AlphaModeStepRenderState(s: MaterialState, info: Dictionary, unlit: bool, shaders: ShaderSet)
    ensures var m := AlphaModeStep(s, info, unlit, shaders);
      var alphaMode := Document.DictOptString(info, "alphaMode", "");
      (alphaMode == "BLEND" ==> m.renderQueue == QUEUE_TRANSPARENT) &&
      (alphaMode == "MASK" ==> m.renderQueue == QUEUE_ALPHA_TEST) &&
      (alphaMode !in {"BLEND", "MASK"} ==> m.renderQueue == s.renderQueue) &&
      (!unlit ==> m.shader == s.shader) &&
      (unlit ==> m.shader == (if alphaMode == "BLEND" then shaders.unlitTransparent
                              else if alphaMode == "MASK" then shaders.unlitCutout
                              else s.shader))
  {
    var alphaMode := Document.DictOptString(info, "alphaMode", "");
    var t := if unlit then WithShader(s, shaders.unlitTransparent) else s;
    var c := if unlit then WithShader(s, shaders.unlitCutout) else s;
    if alphaMode == "BLEND" {
      assert AlphaModeStep(s, info, unlit, shaders) == Fade(t);
    } else if alphaMode == "MASK" {
      assert AlphaModeStep(s, info, unlit, shaders) == Cutout(c, Document.DictOptFloat(info, "alphaCutoff", 0.5));
    }
  }

  /** The render queue and shader a translated material ends with: BLEND
      or a translucent base color gives the transparent queue; MASK
      otherwise gives the alpha-test queue; any other alpha mode keeps the
      queue of the shader in use.  An unlit material takes the unlit
      shader matching its alpha mode; any other keeps the base shader. */
  lemma MaterialFromRenderState(base: MaterialState, info: Dictionary, shaders: ShaderSet, images: seq<Option<Texture>>)
    requires MaterialFrom(base, info, shaders, images).Ok?
    ensures var m := MaterialFrom(base, info, shaders, images).value;
      var alphaMode := Document.DictOptString(info, "alphaMode", "");
      var unlit := IsUnlit(info);
      (alphaMode == "BLEND" || TranslucentFactor(info) ==> m.renderQueue == QUEUE_TRANSPARENT) &&
      (alphaMode == "MASK" && !TranslucentFactor(info) ==> m.renderQueue == QUEUE_ALPHA_TEST) &&
      (alphaMode !in {"BLEND", "MASK"} && !TranslucentFactor(info) ==>
         m.renderQueue == (if unlit then shaders.unlit.queue else base.renderQueue)) &&
      (!unlit ==> m.shader == base.shader) &&
      (unlit ==> m.shader == (if alphaMode == "BLEND" then shaders.unlitTransparent
                              else if alphaMode == "MASK" then shaders.unlitCutout
                              else shaders.unlit))
  {
    var unlit := IsUnlit(info);
    var s2 := HeaderStep(base, info, shaders, images);
    AlphaModeStepRenderState(s2, info, unlit, shaders);
  }

  /** Translation faults exactly when a four-element base color factor
      or an emissive factor holds something other than numbers where the
      casts read. */
  lemma MaterialFromFaults(base: MaterialState, info: Dictionary, shaders: ShaderSet, images: seq<Option<Texture>>)
    ensures MaterialFrom(base, info, shaders, images).Fault? <==>
      (match TryGetValue(info, "pbrMetallicRoughness", TDataDictionary)
       case None => false
       case Some(pbr) =>
         match TryGetValue(pbr.fields, "baseColorFactor", TDataList)
         case None => false
         case Some(c) => |c.items| == 4 && ListToColor(c.items, true).Fault?) ||
      (match TryGetValue(info, "emissiveFactor", TDataList)
       case None => false
       case Some(e) => ListToColor(e.items, false).Fault?)
  {
  }
}
