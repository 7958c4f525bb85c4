/** The `EXT_voyage_shadermotion` material extension: it switches the
    material to the ShaderMotion mesh player shader (keeping the
    material's render queue), copies the numbers of a fixed table of
    float properties and the textures of a fixed table of texture
    properties from the extension record, and takes the motion decoder
    texture from the template material. */
module ShaderMotionMaterial {
  import opened Wrappers
  import opened Json
  import opened Materials
  import Int32

  const EXTENSION_NAME: string := "EXT_voyage_shadermotion"

  /** (glTF key, shader property) pairs, flattened as the handler walks
      them two entries at a time. */
  const FLOAT_PROPERTIES: seq<string> := [
    "alphaTest", "_AlphaTest",
    "cull", "_Cull",
    "alphaCutOff", "_Cutoff",
    "humanScale", "_HumanScale",
    "layer", "_Layer",
    "rotationTolerance", "_RotationTolerance",
    "color", "_Color"
  ]

  const TEXTURE_PROPERTIES: seq<string> := [
    "boneTexture", "_Bone",
    "mainTexture", "_MainTex",
    "shapeTexture", "_Shape"
  ]

  const MOTION_DECODER: string := "_MotionDec"

  /** The glTF key of pair `k`. */
  function Key(pairs: seq<string>, k: int): string
    requires 0 <= 2 * k && 2 * k + 1 < |pairs|
  {
    pairs[2 * k]
  }

  /** The shader property of pair `k`. */
  function Property(pairs: seq<string>, k: int): string
    requires 0 <= 2 * k && 2 * k + 1 < |pairs|
  {
    pairs[2 * k + 1]
  }

  /** Every shader property of the table. */
  function Properties(pairs: seq<string>): (r: set<string>)
    requires |pairs| % 2 == 0
    ensures forall k :: 0 <= k < |pairs| / 2 ==> Property(pairs, k) in r
    ensures forall p :: p in r ==> exists k :: 0 <= k < |pairs| / 2 && Property(pairs, k) == p
  {
    set k | 0 <= k < |pairs| / 2 :: Property(pairs, k)
  }

  /** No shader property appears in two pairs. */
  predicate DistinctProperties(pairs: seq<string>)
    requires |pairs| % 2 == 0
  {
    forall j, k :: 0 <= j < k < |pairs| / 2 ==> Property(pairs, j) != Property(pairs, k)
  }

  /** `GetTexture` on the template: a property never set reads as null. */
  function TemplateTexture(template: MaterialState, property: string): Option<Texture>
  {
    if property in template.textures then template.textures[property] else None
  }

  // ---------------------------------------------------------------------
  // The specification.

  /** The shader swap: when the shader is not the template's, the
      template's shader is assigned and the previous render queue put
      back. */
  function SwapShader(s: MaterialState, shader: Shader): (r: MaterialState)
    ensures r.shader == shader && r.renderQueue == s.renderQueue
    ensures r == s.(shader := shader)
  {
    if s.shader != shader then WithShader(s, shader).(renderQueue := s.renderQueue) else s
  }

  /** One float pair: the number under the key, if there is one. */
  function FloatPair(s: MaterialState, ext: Dictionary, key: string, property: string): MaterialState
  {
    match TryGetValue(ext, key, TDouble)
    case None => s
    case Some(t) => WithFloat(s, property, t.n)
  }

  /** The float loop over the first `|pairs| / 2` pairs. */
  function CopyFloats(s: MaterialState, ext: Dictionary, pairs: seq<string>): MaterialState
    requires |pairs| % 2 == 0
  {
    if |pairs| == 0 then s
    else FloatPair(CopyFloats(s, ext, pairs[..|pairs| - 2]), ext, pairs[|pairs| - 2], pairs[|pairs| - 1])
  }

  /** `SetMaterialGltfTexture`: the indexed texture when "index" is a
      number in range, otherwise no change. */
  function GltfTexture(s: MaterialState, property: string, info: Dictionary, textures: seq<Option<Texture>>): MaterialState
  {
    match TryGetValue(info, "index", TDouble)
    case None => s
    case Some(t) =>
      var index := Int32.DoubleToInt(t.n);
      if index < 0 || index >= |textures| then s else WithTexture(s, property, textures[index])
  }

  /** One texture pair: only a dictionary under the key is looked at. */
  function TexturePair(s: MaterialState, ext: Dictionary, textures: seq<Option<Texture>>, key: string, property: string): MaterialState
  {
    match TryGetValue(ext, key, TDataDictionary)
    case None => s
    case Some(t) => GltfTexture(s, property, t.fields, textures)
  }

  function CopyTextures(s: MaterialState, ext: Dictionary, textures: seq<Option<Texture>>, pairs: seq<string>): MaterialState
    requires |pairs| % 2 == 0
  {
    if |pairs| == 0 then s
    else TexturePair(CopyTextures(s, ext, textures, pairs[..|pairs| - 2]), ext, textures, pairs[|pairs| - 2], pairs[|pairs| - 1])
  }

  /** The motion decoder texture, copied only when the template has one. */
  function MotionDecoder(s: MaterialState, template: MaterialState): MaterialState
  {
    var tex := TemplateTexture(template, MOTION_DECODER);
    if tex.Some? then WithTexture(s, MOTION_DECODER, tex) else s
  }

  /** What `HandleInternal` makes of the material. */
  function ShaderMotionFrom(s: MaterialState, ext: Dictionary, template: MaterialState, textures: seq<Option<Texture>>): MaterialState
  {
    var s := SwapShader(s, template.shader);
    var s := CopyFloats(s, ext, FLOAT_PROPERTIES);
    var s := CopyTextures(s, ext, textures, TEXTURE_PROPERTIES);
    MotionDecoder(s, template)
  }

  // ---------------------------------------------------------------------
  // Properties of the specification.

  lemma PrefixPairs(pairs: seq<string>, k: int)
    requires |pairs| % 2 == 0 && 0 <= k < |pairs| / 2 - 1
    ensures |pairs[..|pairs| - 2]| % 2 == 0
    ensures Key(pairs[..|pairs| - 2], k) == Key(pairs, k)
    ensures Property(pairs[..|pairs| - 2], k) == Property(pairs, k)
  {
  }

  /** The float loop writes nothing but floats, and of those only the
      table's properties. */
  lemma {:induction false} CopyFloatsFrame(s: MaterialState, ext: Dictionary, pairs: seq<string>)
    requires |pairs| % 2 == 0
    ensures CopyFloats(s, ext, pairs) == s.(floats := CopyFloats(s, ext, pairs).floats)
    ensures CopyFloats(s, ext, pairs).floats - Properties(pairs) == s.floats - Properties(pairs)
  {
    if |pairs| > 0 {
      var init := pairs[..|pairs| - 2];
      CopyFloatsFrame(s, ext, init);
      var t := CopyFloats(s, ext, init);
      var r := CopyFloats(s, ext, pairs);
      assert Properties(pairs) == Properties(init) + {pairs[|pairs| - 1]} by {
        forall k | 0 <= k < |init| / 2
          ensures Property(init, k) == Property(pairs, k)
        {
          PrefixPairs(pairs, k);
        }
        assert Property(pairs, |pairs| / 2 - 1) == pairs[|pairs| - 1];
      }
      MinusLarger(t.floats, s.floats, Properties(init), Properties(pairs));
      if r != t {
        MinusUpdate(t.floats, pairs[|pairs| - 1], ext[pairs[|pairs| - 2]].n, Properties(pairs));
      }
    }
  }

  lemma MinusLarger<K, V>(m1: map<K, V>, m2: map<K, V>, small: set<K>, large: set<K>)
    requires small <= large && m1 - small == m2 - small
    ensures m1 - large == m2 - large
  {
    assert m1 - large == (m1 - small) - large;
    assert m2 - large == (m2 - small) - large;
  }

  lemma MinusUpdate<K, V>(m: map<K, V>, k: K, v: V, drop: set<K>)
    requires k in drop
    ensures m[k := v] - drop == m - drop
  {
  }

  /** Pair `k`'s property holds the number under pair `k`'s key when
      there is one, and otherwise keeps its earlier value (absent stays
      absent). */
  lemma {:induction false} CopyFloatsSpec(s: MaterialState, ext: Dictionary, pairs: seq<string>, k: int)
    requires |pairs| % 2 == 0 && DistinctProperties(pairs) && 0 <= k < |pairs| / 2
    ensures var r := CopyFloats(s, ext, pairs); var key := Key(pairs, k); var p := Property(pairs, k);
      && (TryGetValue(ext, key, TDouble).Some? ==> p in r.floats && r.floats[p] == ext[key].n)
      && (TryGetValue(ext, key, TDouble).None? ==> (p in r.floats <==> p in s.floats) && (p in s.floats ==> r.floats[p] == s.floats[p]))
  {
    var init := pairs[..|pairs| - 2];
    var last := |pairs| / 2 - 1;
    var t := CopyFloats(s, ext, init);
    if k == last {
      if TryGetValue(ext, Key(pairs, k), TDouble).None? {
        CopyFloatsFrame(s, ext, init);
        assert Property(pairs, k) !in Properties(init) by {
          forall j | 0 <= j < |init| / 2
            ensures Property(init, j) != Property(pairs, k)
          {
            PrefixPairs(pairs, j);
          }
        }
        MinusKeeps(t.floats, s.floats, Properties(init), Property(pairs, k));
      }
    } else {
      PrefixPairs(pairs, k);
      assert DistinctProperties(init) by {
        forall i, j | 0 <= i < j < |init| / 2
          ensures Property(init, i) != Property(init, j)
        {
          PrefixPairs(pairs, i);
          PrefixPairs(pairs, j);
        }
      }
      CopyFloatsSpec(s, ext, init, k);
      assert Property(pairs, k) != pairs[|pairs| - 1] by {
        assert Property(pairs, last) == pairs[|pairs| - 1];
      }
    }
  }

  lemma MinusKeeps<K, V>(m1: map<K, V>, m2: map<K, V>, drop: set<K>, k: K)
    requires m1 - drop == m2 - drop && k !in drop
    ensures k in m1 <==> k in m2
    ensures k in m1 ==> m1[k] == m2[k]
  {
    assert k in m1 <==> k in m1 - drop;
    assert k in m2 <==> k in m2 - drop;
    if k in m1 {
      assert m1[k] == (m1 - drop)[k];
      assert m2[k] == (m2 - drop)[k];
    }
  }

  /** The texture loop writes nothing but textures, and of those only the
      table's properties. */
  lemma {:induction false} CopyTexturesFrame(s: MaterialState, ext: Dictionary, textures: seq<Option<Texture>>, pairs: seq<string>)
    requires |pairs| % 2 == 0
    ensures CopyTextures(s, ext, textures, pairs) == s.(textures := CopyTextures(s, ext, textures, pairs).textures)
    ensures CopyTextures(s, ext, textures, pairs).textures - Properties(pairs) == s.textures - Properties(pairs)
  {
    if |pairs| > 0 {
      var init := pairs[..|pairs| - 2];
      CopyTexturesFrame(s, ext, textures, init);
      var t := CopyTextures(s, ext, textures, init);
      var r := CopyTextures(s, ext, textures, pairs);
      assert Properties(pairs) == Properties(init) + {pairs[|pairs| - 1]} by {
        forall k | 0 <= k < |init| / 2
          ensures Property(init, k) == Property(pairs, k)
        {
          PrefixPairs(pairs, k);
        }
        assert Property(pairs, |pairs| / 2 - 1) == pairs[|pairs| - 1];
      }
      MinusLarger(t.textures, s.textures, Properties(init), Properties(pairs));
      if r != t {
        var info := ext[pairs[|pairs| - 2]].fields;
        var index := Int32.DoubleToInt(info["index"].n);
        MinusUpdate(t.textures, pairs[|pairs| - 1], textures[index], Properties(pairs));
      }
    }
  }

  /** The texture a pair receives: set exactly when the extension has a
      dictionary under the key whose "index" is a number in range. */
  predicate TextureApplies(ext: Dictionary, key: string, textures: seq<Option<Texture>>)
  {
    && TryGetValue(ext, key, TDataDictionary).Some?
    && TryGetValue(ext[key].fields, "index", TDouble).Some?
    && 0 <= Int32.DoubleToInt(ext[key].fields["index"].n) < |textures|
  }

  /** Pair `k`'s property holds the indexed texture when the pair applies,
      and otherwise keeps its earlier value (absent stays absent). */
  lemma {:induction false} CopyTexturesSpec(s: MaterialState, ext: Dictionary, textures: seq<Option<Texture>>, pairs: seq<string>, k: int)
    requires |pairs| % 2 == 0 && DistinctProperties(pairs) && 0 <= k < |pairs| / 2
    ensures var r := CopyTextures(s, ext, textures, pairs); var key := Key(pairs, k); var p := Property(pairs, k);
      && (TextureApplies(ext, key, textures) ==>
            p in r.textures && r.textures[p] == textures[Int32.DoubleToInt(ext[key].fields["index"].n)])
      && (!TextureApplies(ext, key, textures) ==>
            (p in r.textures <==> p in s.textures) && (p in s.textures ==> r.textures[p] == s.textures[p]))
  {
    var init := pairs[..|pairs| - 2];
    var last := |pairs| / 2 - 1;
    var t := CopyTextures(s, ext, textures, init);
    if k == last {
      if !TextureApplies(ext, Key(pairs, k), textures) {
        CopyTexturesFrame(s, ext, textures, init);
        assert Property(pairs, k) !in Properties(init) by {
          forall j | 0 <= j < |init| / 2
            ensures Property(init, j) != Property(pairs, k)
          {
            PrefixPairs(pairs, j);
          }
        }
        MinusKeeps(t.textures, s.textures, Properties(init), Property(pairs, k));
      }
    } else {
      PrefixPairs(pairs, k);
      assert DistinctProperties(init) by {
        forall i, j | 0 <= i < j < |init| / 2
          ensures Property(init, i) != Property(init, j)
        {
          PrefixPairs(pairs, i);
          PrefixPairs(pairs, j);
        }
      }
      CopyTexturesSpec(s, ext, textures, init, k);
      assert Property(pairs, k) != pairs[|pairs| - 1] by {
        assert Property(pairs, last) == pairs[|pairs| - 1];
      }
    }
  }

  lemma TablesWellFormed()
    ensures |FLOAT_PROPERTIES| % 2 == 0 && DistinctProperties(FLOAT_PROPERTIES)
    ensures |TEXTURE_PROPERTIES| % 2 == 0 && DistinctProperties(TEXTURE_PROPERTIES)
    ensures MOTION_DECODER !in Properties(TEXTURE_PROPERTIES)
  {
    FloatTableDistinct();
    TextureTableDistinct();
  }

  lemma FloatTableDistinct()
    ensures |FLOAT_PROPERTIES| % 2 == 0 && DistinctProperties(FLOAT_PROPERTIES)
  {
    var names := ["_AlphaTest", "_Cull", "_Cutoff", "_HumanScale", "_Layer", "_RotationTolerance", "_Color"];
    forall k | 0 <= k < 7
      ensures Property(FLOAT_PROPERTIES, k) == names[k]
    {
    }
    assert forall j, k :: 0 <= j < k < 7 ==> names[j] != names[k] by {
      assert names[0][1] == 'A' && names[1][1] == 'C' && names[2][1] == 'C' && names[3][1] == 'H';
      assert names[4][1] == 'L' && names[5][1] == 'R' && names[6][1] == 'C';
      assert names[1][2] == 'u' && names[2][2] == 'u' && names[6][2] == 'o';
      assert |names[1]| == 5 && |names[2]| == 7;
    }
  }

  lemma TextureTableDistinct()
    ensures |TEXTURE_PROPERTIES| % 2 == 0 && DistinctProperties(TEXTURE_PROPERTIES)
    ensures MOTION_DECODER !in Properties(TEXTURE_PROPERTIES)
  {
    var names := ["_Bone", "_MainTex", "_Shape"];
    forall k | 0 <= k < 3
      ensures Property(TEXTURE_PROPERTIES, k) == names[k]
    {
    }
    assert names[0][1] == 'B' && names[1][1] == 'M' && names[2][1] == 'S';
    assert MOTION_DECODER[2] == 'o' && names[1][2] == 'a';
    assert |MOTION_DECODER| != |names[0]| && |MOTION_DECODER| != |names[2]|;
  }

  /** The whole handler: the template's shader with the old render queue,
      the listed float and texture properties copied as the two tables
      say, the motion decoder taken from the template when it has one,
      and nothing else changed. */
  lemma {:induction false} ShaderMotionSpec(s: MaterialState, ext: Dictionary, template: MaterialState, textures: seq<Option<Texture>>)
    ensures var r := ShaderMotionFrom(s, ext, template, textures);
      && r.shader == template.shader && r.renderQueue == s.renderQueue
      && r == s.(shader := r.shader, floats := r.floats, textures := r.textures)
      && r.floats - Properties(FLOAT_PROPERTIES) == s.floats - Properties(FLOAT_PROPERTIES)
      && r.textures - (Properties(TEXTURE_PROPERTIES) + {MOTION_DECODER})
         == s.textures - (Properties(TEXTURE_PROPERTIES) + {MOTION_DECODER})
      && (TemplateTexture(template, MOTION_DECODER).Some? ==>
            MOTION_DECODER in r.textures && r.textures[MOTION_DECODER] == TemplateTexture(template, MOTION_DECODER))
  {
    TablesWellFormed();
    var s1 := SwapShader(s, template.shader);
    CopyFloatsFrame(s1, ext, FLOAT_PROPERTIES);
    var s2 := CopyFloats(s1, ext, FLOAT_PROPERTIES);
    CopyTexturesFrame(s2, ext, textures, TEXTURE_PROPERTIES);
    var s3 := CopyTextures(s2, ext, textures, TEXTURE_PROPERTIES);
    var r := MotionDecoder(s3, template);
    var drop := Properties(TEXTURE_PROPERTIES) + {MOTION_DECODER};
    MinusLarger(s3.textures, s2.textures, Properties(TEXTURE_PROPERTIES), drop);
    if r != s3 {
      MinusUpdate(s3.textures, MOTION_DECODER, TemplateTexture(template, MOTION_DECODER), drop);
    }
  }

  /** Each listed float property: the extension's number when it has one,
      otherwise what the material had. */
  lemma ShaderMotionFloat(s: MaterialState, ext: Dictionary, template: MaterialState, textures: seq<Option<Texture>>, k: int)
    requires 0 <= k < |FLOAT_PROPERTIES| / 2
    ensures var r := ShaderMotionFrom(s, ext, template, textures);
      var key := Key(FLOAT_PROPERTIES, k); var p := Property(FLOAT_PROPERTIES, k);
      && (TryGetValue(ext, key, TDouble).Some? ==> p in r.floats && r.floats[p] == ext[key].n)
      && (TryGetValue(ext, key, TDouble).None? ==> (p in r.floats <==> p in s.floats) && (p in s.floats ==> r.floats[p] == s.floats[p]))
  {
    TablesWellFormed();
    var s1 := SwapShader(s, template.shader);
    CopyFloatsSpec(s1, ext, FLOAT_PROPERTIES, k);
    var s2 := CopyFloats(s1, ext, FLOAT_PROPERTIES);
    CopyTexturesFrame(s2, ext, textures, TEXTURE_PROPERTIES);
  }

  /** Each listed texture property: the indexed texture when the entry
      applies, otherwise what the material had. */
  lemma ShaderMotionTexture(s: MaterialState, ext: Dictionary, template: MaterialState, textures: seq<Option<Texture>>, k: int)
    requires 0 <= k < |TEXTURE_PROPERTIES| / 2
    ensures var r := ShaderMotionFrom(s, ext, template, textures);
      var key := Key(TEXTURE_PROPERTIES, k); var p := Property(TEXTURE_PROPERTIES, k);
      && (TextureApplies(ext, key, textures) ==>
            p in r.textures && r.textures[p] == textures[Int32.DoubleToInt(ext[key].fields["index"].n)])
      && (!TextureApplies(ext, key, textures) ==>
            (p in r.textures <==> p in s.textures) && (p in s.textures ==> r.textures[p] == s.textures[p]))
  {
    TablesWellFormed();
    var s1 := SwapShader(s, template.shader);
    CopyFloatsFrame(s1, ext, FLOAT_PROPERTIES);
    var s2 := CopyFloats(s1, ext, FLOAT_PROPERTIES);
    CopyTexturesSpec(s2, ext, textures, TEXTURE_PROPERTIES, k);
    assert Property(TEXTURE_PROPERTIES, k) != MOTION_DECODER;
  }

  // ---------------------------------------------------------------------
  // The handler.

  /** `SetMaterialGltfTexture`. */
  method SetMaterialGltfTexture(mat: Material, propertyName: string, info: Dictionary, textures: seq<Option<Texture>>)
    modifies mat
    ensures mat.State() == GltfTexture(old(mat.State()), propertyName, info, textures)
  {
    var indexToken := TryGetValue(info, "index", TDouble);
    if indexToken.None? {
      return;
    }
    var index := Int32.DoubleToInt(indexToken.value.n);
    if index < 0 {
      return;
    }
    if index >= |textures| {
      return;
    }
    mat.SetTexture(propertyName, textures[index]);
  }

  /** The float loop of `HandleInternal`. */
  method CopyFloatProperties(material: Material, ext: Dictionary)
    modifies material
    ensures material.State() == CopyFloats(old(material.State()), ext, FLOAT_PROPERTIES)
  {
    ghost var s0 := material.State();
    var nFloatProperties := |FLOAT_PROPERTIES|;
    var i := 0;
    while i < nFloatProperties
      invariant 0 <= i <= nFloatProperties && i % 2 == 0
      invariant material.State() == CopyFloats(s0, ext, FLOAT_PROPERTIES[..i])
    {
      assert FLOAT_PROPERTIES[..i + 2][..i] == FLOAT_PROPERTIES[..i];
      var gltfProperty := FLOAT_PROPERTIES[i];
      var valueToken := TryGetValue(ext, gltfProperty, TDouble);
      if valueToken.Some? {
        var floatProperty := FLOAT_PROPERTIES[i + 1];
        material.SetFloat(floatProperty, valueToken.value.n);
      }
      i := i + 2;
    }
    assert FLOAT_PROPERTIES[..nFloatProperties] == FLOAT_PROPERTIES;
  }

  /** The texture loop of `HandleInternal`. */
  method CopyTextureProperties(material: Material, ext: Dictionary, textures: seq<Option<Texture>>)
    modifies material
    ensures material.State() == CopyTextures(old(material.State()), ext, textures, TEXTURE_PROPERTIES)
  {
    ghost var s0 := material.State();
    var nTextureProperties := |TEXTURE_PROPERTIES|;
    var i := 0;
    while i < nTextureProperties
      invariant 0 <= i <= nTextureProperties && i % 2 == 0
      invariant material.State() == CopyTextures(s0, ext, textures, TEXTURE_PROPERTIES[..i])
    {
      assert TEXTURE_PROPERTIES[..i + 2][..i] == TEXTURE_PROPERTIES[..i];
      var gltfProperty := TEXTURE_PROPERTIES[i];
      var valueToken := TryGetValue(ext, gltfProperty, TDataDictionary);
      if valueToken.Some? {
        var textureProperty := TEXTURE_PROPERTIES[i + 1];
        SetMaterialGltfTexture(material, textureProperty, valueToken.value.fields, textures);
      }
      i := i + 2;
    }
    assert TEXTURE_PROPERTIES[..nTextureProperties] == TEXTURE_PROPERTIES;
  }

  /** `HandleInternal`: the template material supplies the shader and the
      motion decoder texture; the loader's texture list is a parameter. */
  method HandleInternal(material: Material, ext: Dictionary, mainDefinition: Dictionary,
                        template: MaterialState, textures: seq<Option<Texture>>)
    modifies material
    ensures material.State() == ShaderMotionFrom(old(material.State()), ext, template, textures)
  {
    if material.shader != template.shader {
      var renderQueue := material.renderQueue;
      material.SetShader(template.shader);
      material.SetRenderQueue(renderQueue);
    }
    CopyFloatProperties(material, ext);
    CopyTextureProperties(material, ext, textures);
    var tex := TemplateTexture(template, MOTION_DECODER);
    if tex.Some? {
      material.SetTexture(MOTION_DECODER, tex);
    }
  }
}
