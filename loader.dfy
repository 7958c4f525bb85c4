/** The loader component: the state it keeps across frames, the stages
    it runs one tick at a time, and the lifecycle calls that reset and
    restart it. */
module Loader {
  import opened Wrappers
  import opened Json
  import opened Bytes
  import Int32
  import opened Schedule
  import Container
  import opened Document
  import Accessors
  import Materials
  import opened Scene
  import Parents

  /** The events `NotifyState` broadcasts to the state receivers. */
  const SCENE_CLEARED: string := "SceneCleared"
  const PARSE_ERROR: string := "ParseError"
  const SCENE_LOADED: string := "SceneLoaded"

  function Events(s: Signal): seq<string>
  {
    match s
    case NoSignal => []
    case ParseErrorSignal => [PARSE_ERROR]
    case SceneLoadedSignal => [SCENE_LOADED]
  }

  /** `(DataList)glbJson[key]`: the cast throws unless the value is a list. */
  function ListAt(json: Dictionary, key: string): Run<seq<Token>>
  {
    AsList(Get(json, key))
  }

  /** The `TryGetValue(key, TokenType.DataList, …)` test a stage makes on
      a fresh start. */
  predicate HasList(json: Dictionary, key: string)
  {
    TryGetValue(json, key, TDataList).Some?
  }

  lemma HasListCasts(json: Dictionary, key: string)
    requires HasList(json, key)
    ensures ListAt(json, key) == Ok(json[key].items)
  {
  }

  /** The slot written for an accessor token: its record when it is a
      dictionary; other tokens are skipped. */
  function AccessorSlotOf(t: Token): Run<Option<Option<AccessorSlot>>>
  {
    if t.Dict? then Ok(Some(Some(NewSlot(t.fields)))) else Ok(None)
  }

  /** The slot written for an image token: `ParseImage`'s texture for a
      dictionary; other tokens are skipped. */
  function ImageSlotFor(glb: seq<byte>, dataStart: int, views: seq<Option<BufferViewInfo>>): Token -> Run<Option<Option<Materials.Texture>>>
  {
    (t: Token) => if !t.Dict? then Ok(None)
         else match ImageOf(t.fields, glb, dataStart, views)
              case Fault => Fault
              case Ok(tex) => Ok(Some(tex))
  }

  /** The slot written for a material token: the translated material for a
      dictionary, null for anything else. */
  function MaterialSlotFor(base: Materials.MaterialState, shaders: Materials.ShaderSet,
                        images: seq<Option<Materials.Texture>>): Token -> Run<Option<Option<Materials.MaterialState>>>
  {
    (t: Token) => if !t.Dict? then Ok(Some(None))
         else match Materials.MaterialFrom(base, t.fields, shaders, images)
              case Fault => Fault
              case Ok(m) => Ok(Some(Some(m)))
  }

  /** Every visited index gets a fresh instance of the node prefab,
      under the loader's root. */
  function SpawnSlotFor(prefab: NodeState): Token -> Run<Option<Option<NodeState>>>
  {
    (_: Token) => Ok(Some(Some(Instance(prefab))))
  }

  /** A mesh slot is written (and time asked for) exactly when the token
      is a dictionary that `GetMeshInfo` accepts. */
  predicate MeshWritten(t: Token)
  {
    t.Dict? && HasPrimitives(t.fields)
  }

  function MeshAsks(list: seq<Token>): (asks: seq<bool>)
    ensures |asks| == |list|
  {
    seq(|list|, j requires 0 <= j < |list| => MeshWritten(list[j]))
  }

  /** One visit of the mesh loop: a token that is not a dictionary is
      skipped; otherwise `LoadMesh` runs on the cache so far, and its mesh
      (if any) is written into slot i. */
  function MeshStep(done: (seq<Option<MeshSlot>>, Cache), t: Token, i: nat,
                    parse: AccessorParser, glb: seq<byte>, dataStart: int, views: seq<Option<BufferViewInfo>>): (r: Run<(seq<Option<MeshSlot>>, Cache)>)
    ensures r.Ok? ==> |r.value.0| == |done.0| && Extends(done.1, r.value.1)
    ensures r.Ok? ==> forall j :: 0 <= j < |done.0| && j != i ==> r.value.0[j] == done.0[j]
    ensures r.Ok? && !MeshWritten(t) ==> r.value.0 == done.0
    ensures r.Ok? && MeshWritten(t) ==>
      && i < |done.0| && r.value.0[i].Some?
      && |r.value.0[i].value.mesh.submeshes| == MeshInfoOf(t.fields).value.nSubmeshes
      && r.value.0[i].value.materials == MeshInfoOf(t.fields).value.materials
  {
    if !t.Dict? then Ok(done)
    else
      match MeshFrom(done.1, parse, glb, dataStart, views, t.fields)
      case Fault => Fault
      case Ok(loaded) =>
        if loaded.0.None? then Ok((done.0, loaded.1))
        else if i < |done.0| then Ok((done.0[i := loaded.0], loaded.1))
        else Fault
  }

  /** What the mesh loop has written into the mesh slots, and the
      accessor cache it leaves, after visiting [lo, hi). */
  function MeshesFilled(base: seq<Option<MeshSlot>>, cache: Cache, list: seq<Token>, lo: nat, hi: nat,
                        parse: AccessorParser, glb: seq<byte>, dataStart: int, views: seq<Option<BufferViewInfo>>): (r: Run<(seq<Option<MeshSlot>>, Cache)>)
    requires hi <= |list|
    ensures r.Ok? ==> |r.value.0| == |base| && Extends(cache, r.value.1)
    decreases hi
  {
    if hi <= lo then Ok((base, cache))
    else
      match MeshesFilled(base, cache, list, lo, hi - 1, parse, glb, dataStart, views)
      case Fault => Fault
      case Ok(done) =>
        var r := MeshStep(done, list[hi - 1], hi - 1, parse, glb, dataStart, views);
        if r.Ok? then ExtendsTransitive(cache, done.1, r.value.1); r else r
  }

  /** Every mesh slot the loop wrote over [lo, hi) holds a mesh with one
      submesh per usable primitive and the primitives' material indices;
      the other slots keep their base entry. */
  predicate MeshesWrote(base: seq<Option<MeshSlot>>, list: seq<Token>, lo: nat, hi: nat, filled: seq<Option<MeshSlot>>)
    requires hi <= |list| && |filled| == |base|
  {
    forall j :: 0 <= j < |base| ==>
      if lo <= j < hi && MeshWritten(list[j]) then
        && filled[j].Some?
        && |filled[j].value.mesh.submeshes| == MeshInfoOf(list[j].fields).value.nSubmeshes
        && filled[j].value.materials == MeshInfoOf(list[j].fields).value.materials
      else filled[j] == base[j]
  }

  /** One visit keeps `MeshesWrote`, one index further. */
  lemma MeshStepWrote(base: seq<Option<MeshSlot>>, list: seq<Token>, lo: nat, i: nat,
                      done: (seq<Option<MeshSlot>>, Cache), filled: (seq<Option<MeshSlot>>, Cache),
                      parse: AccessorParser, glb: seq<byte>, dataStart: int, views: seq<Option<BufferViewInfo>>)
    requires lo <= i < |list| && |done.0| == |base|
    requires MeshesWrote(base, list, lo, i, done.0)
    requires MeshStep(done, list[i], i, parse, glb, dataStart, views) == Ok(filled)
    ensures |filled.0| == |base| && MeshesWrote(base, list, lo, i + 1, filled.0)
  {
  }

  /** What the mesh loop leaves is described by `MeshesWrote`. */
  lemma {:induction false} MeshesFilledSpec(base: seq<Option<MeshSlot>>, cache: Cache, list: seq<Token>, lo: nat, hi: nat,
                                            parse: AccessorParser, glb: seq<byte>, dataStart: int, views: seq<Option<BufferViewInfo>>)
    requires hi <= |list|
    requires MeshesFilled(base, cache, list, lo, hi, parse, glb, dataStart, views).Ok?
    ensures MeshesWrote(base, list, lo, hi, MeshesFilled(base, cache, list, lo, hi, parse, glb, dataStart, views).value.0)
    decreases hi
  {
    if hi > lo {
      MeshesFilledSpec(base, cache, list, lo, hi - 1, parse, glb, dataStart, views);
      var done := MeshesFilled(base, cache, list, lo, hi - 1, parse, glb, dataStart, views).value;
      MeshesStep(base, cache, list, lo, hi - 1, done, parse, glb, dataStart, views);
      MeshStepWrote(base, list, lo, hi - 1, done, MeshesFilled(base, cache, list, lo, hi, parse, glb, dataStart, views).value,
                    parse, glb, dataStart, views);
    }
  }

  /** One more visit of the mesh loop. */
  lemma MeshesStep(base: seq<Option<MeshSlot>>, cache: Cache, list: seq<Token>, lo: nat, i: nat,
                   done: (seq<Option<MeshSlot>>, Cache), parse: AccessorParser, glb: seq<byte>, dataStart: int, views: seq<Option<BufferViewInfo>>)
    requires lo <= i < |list|
    requires MeshesFilled(base, cache, list, lo, i, parse, glb, dataStart, views) == Ok(done)
    ensures MeshesFilled(base, cache, list, lo, i + 1, parse, glb, dataStart, views) == MeshStep(done, list[i], i, parse, glb, dataStart, views)
  {
  }

  lemma {:induction false} MeshesFaultPersists(base: seq<Option<MeshSlot>>, cache: Cache, list: seq<Token>, lo: nat, k: nat, m: nat,
                                               parse: AccessorParser, glb: seq<byte>, dataStart: int, views: seq<Option<BufferViewInfo>>)
    requires k <= m <= |list|
    requires MeshesFilled(base, cache, list, lo, k, parse, glb, dataStart, views).Fault?
    ensures MeshesFilled(base, cache, list, lo, m, parse, glb, dataStart, views).Fault?
    decreases m - k
  {
    if k < m {
      MeshesFaultPersists(base, cache, list, lo, k, m - 1, parse, glb, dataStart, views);
    }
  }

  /** A stage's array before its loop: a fresh one of the list's length
      on a fresh start, the one it left on a resume. */
  function Blank<T>(before: seq<Option<T>>, start: int, n: nat): (b: seq<Option<T>>)
    ensures start == 0 ==> |b| == n && forall j :: 0 <= j < n ==> b[j].None?
    ensures start != 0 ==> b == before
  {
    if start == 0 then seq(n, _ => None) else before
  }

  /** What a stage loop resumed at `start` over `list` leaves: the code of
      its schedule, the clock with one answer gone per question asked,
      and its array filled over the indices it reached. */
  predicate StageResult<T(==)>(clock: Oracle, at: nat, asked: nat, base: seq<Option<T>>, after: seq<Option<T>>,
                           list: seq<Token>, start: nat, slot: Token -> Run<Option<Option<T>>>, code: int)
  {
    && code == LoopCode(clock, at, start, |list|)
    && asked == at + Asked(clock, at, start, |list|)
    && Fill(base, list, start, Reach(clock, at, start, |list|), slot) == Ok(after)
  }

  /** A loop that yields at i has reached i. */
  lemma StageYields<T>(clock: Oracle, at: nat, asked: nat, base: seq<Option<T>>, after: seq<Option<T>>,
                       list: seq<Token>, start: nat, slot: Token -> Run<Option<Option<T>>>, i: nat)
    requires start < i < |list| && AllYes(clock, at + 1, at + (i - start)) && !Answer(clock, at + (i - start))
    requires asked == at + (i - start) + 1
    requires Fill(base, list, start, i, slot) == Ok(after)
    ensures StageResult(clock, at, asked, base, after, list, start, slot, i)
  {
    StoppedAt(clock, at, start, i, |list|);
  }

  /** A loop that leaves its `for` at i has reached the end. */
  lemma StageCompletes<T>(clock: Oracle, at: nat, asked: nat, base: seq<Option<T>>, after: seq<Option<T>>,
                          list: seq<Token>, start: nat, slot: Token -> Run<Option<Option<T>>>, i: nat)
    requires start <= i && |list| <= i && (i == |list| || i == start) && AllYes(clock, at + 1, at + (i - start))
    requires asked == at + (i - start)
    requires Fill(base, list, start, |list|, slot) == Ok(after)
    ensures StageResult(clock, at, asked, base, after, list, start, slot, COMPLETE)
  {
    Completed(clock, at, start, i, |list|);
  }

  lemma AccessorStep(base: Cache, list: seq<Token>, lo: nat, i: nat, o: Cache)
    requires lo <= i < |list| && Fill(base, list, lo, i, AccessorSlotOf) == Ok(o)
    ensures !list[i].Dict? ==> Fill(base, list, lo, i + 1, AccessorSlotOf) == Ok(o)
    ensures list[i].Dict? && i < |o| ==> Fill(base, list, lo, i + 1, AccessorSlotOf) == Ok(o[i := Some(NewSlot(list[i].fields))])
  {
  }

  /** `indicesSum += instance.mesh.vertexCount`, an unchecked `int`
      addition: the running total stays the wrapping sum of the submeshes
      loaded so far. */
  method AddVertexCount(sum: int, ghost subs: seq<SubmeshData>, x: SubmeshData) returns (r: int)
    requires sum == VertexSum(subs)
    ensures r == VertexSum(subs + [x])
  {
    VertexSumAppend(subs, x);
    r := Int32.Wrap(sum + |x.vertices|);
  }

  /** What the mesh loop resumed at `start` leaves: the code of its
      schedule, one question per mesh it stored, and the mesh slots and
      accessor cache after the indices it reached. */
  predicate MeshStageResult(clock: Oracle, at: nat, asked: nat, base: seq<Option<MeshSlot>>, cache: Cache,
                            after: seq<Option<MeshSlot>>, cacheAfter: Cache, list: seq<Token>, start: nat,
                            parse: AccessorParser, glb: seq<byte>, dataStart: int, views: seq<Option<BufferViewInfo>>, code: int)
  {
    var asks := MeshAsks(list);
    var end := LateEnd(clock, at, asks, start);
    && code == LateCode(clock, at, asks, start)
    && asked == at + AskedCount(asks, start, end)
    && MeshesFilled(base, cache, list, start, end, parse, glb, dataStart, views) == Ok((after, cacheAfter))
  }

  /** A mesh loop that stopped after storing mesh m yields m. */
  lemma MeshStageStops(clock: Oracle, at: nat, asked: nat, base: seq<Option<MeshSlot>>, cache: Cache,
                       after: seq<Option<MeshSlot>>, cacheAfter: Cache, list: seq<Token>, start: nat,
                       parse: AccessorParser, glb: seq<byte>, dataStart: int, views: seq<Option<BufferViewInfo>>, m: nat)
    requires m < |list|
    requires LateCode(clock, at, MeshAsks(list), start) == m && LateEnd(clock, at, MeshAsks(list), start) == m + 1
    requires asked == at + AskedCount(MeshAsks(list), start, m + 1)
    requires MeshesFilled(base, cache, list, start, m + 1, parse, glb, dataStart, views) == Ok((after, cacheAfter))
    ensures MeshStageResult(clock, at, asked, base, cache, after, cacheAfter, list, start, parse, glb, dataStart, views, m)
  {
  }

  /** A mesh loop that ran to the end completes. */
  lemma MeshStageEnds(clock: Oracle, at: nat, asked: nat, base: seq<Option<MeshSlot>>, cache: Cache,
                      after: seq<Option<MeshSlot>>, cacheAfter: Cache, list: seq<Token>, start: nat,
                      parse: AccessorParser, glb: seq<byte>, dataStart: int, views: seq<Option<BufferViewInfo>>)
    requires LateAt(clock, at, MeshAsks(list), start, |list|, asked)
    requires MeshesFilled(base, cache, list, start, |list|, parse, glb, dataStart, views) == Ok((after, cacheAfter))
    ensures MeshStageResult(clock, at, asked, base, cache, after, cacheAfter, list, start, parse, glb, dataStart, views, COMPLETE)
  {
    LateEnds(clock, at, MeshAsks(list), start, asked);
  }

  /** The node objects, or none at all when the array was never made. */
  function NodesOrEmpty(nodes: Option<seq<Option<NodeState>>>): (objs: seq<Option<NodeState>>)
    ensures nodes.Some? ==> objs == nodes.value
    ensures nodes.None? ==> objs == []
  {
    if nodes.Some? then nodes.value else []
  }

  /** What `SetupNodes` resumed at `start` leaves: the code of its
      schedule, one question per visited node, and the nodes set up over
      the indices it reached. */
  predicate SetupResult(clock: Oracle, at: nat, asked: nat, base: seq<Option<NodeState>>, after: seq<Option<NodeState>>,
                        list: seq<Token>, start: nat, meshes: seq<Option<MeshSlot>>, maxMeshIndex: int, nKnown: int, code: int)
  {
    && code == LoopCode(clock, at, start, |list|)
    && asked == at + Asked(clock, at, start, |list|)
    && SetupRange(base, list, start, Reach(clock, at, start, |list|), meshes, maxMeshIndex, nKnown) == Ok(after)
  }

  /** The loader component. */
  class GLBLoader {
    var currentState: int
    var currentIndex: int
    var finished: bool
    /** Whether the engine keeps calling `Update`. */
    var enabled: bool
    /** Set when a tick threw: the engine then stops running the behaviour. */
    var crashed: bool
    var glb: seq<byte>
    /** The bytes of the JSON chunk. */
    var glbJsonRaw: seq<byte>
    var glbJson: Option<Dictionary>
    var glbDataStart: int
    var bufferViews: seq<Option<BufferViewInfo>>
    var accessors: Cache
    var images: seq<Option<Materials.Texture>>
    var materials: seq<Option<Materials.MaterialState>>
    var meshesInfo: seq<Option<MeshSlot>>
    var nodes: Option<seq<Option<NodeState>>>
    /** The events broadcast so far. */
    var notifications: seq<string>
    /** How many times `StillHaveTime` has been called. */
    var asked: nat

    /** UTF-8 decoding followed by `VRCJson.TryDeserializeFromJson`. */
    const decode: seq<byte> -> Token
    /** What `StillHaveTime` answers, call after call. */
    const clock: Oracle
    const baseMaterial: Materials.MaterialState
    const shaders: Materials.ShaderSet
    const nodePrefab: NodeState
    /** `ParseAccessorBuffer`. */
    const parser: AccessorParser

    /** A component as the scene creates it: enabled, in state -1 at
        index -1, with no data. */
    constructor (decode: seq<byte> -> Token, baseMaterial: Materials.MaterialState, shaders: Materials.ShaderSet,
                 nodePrefab: NodeState, clock: Oracle)
      ensures currentState == -1 && currentIndex == -1
      ensures !finished && enabled && !crashed
      ensures glb == [] && glbJsonRaw == [] && glbJson.None? && glbDataStart == 0
      ensures bufferViews == [] && accessors == [] && images == [] && materials == [] && meshesInfo == [] && nodes.None?
      ensures notifications == [] && asked == 0 && this.clock == clock
      ensures this.decode == decode && this.baseMaterial == baseMaterial && this.shaders == shaders && this.nodePrefab == nodePrefab
      ensures parser == Accessors.AccessorBuffer
    {
      currentState, currentIndex := -1, -1;
      finished, enabled, crashed := false, true, false;
      glb, glbJsonRaw, glbJson, glbDataStart := [], [], None, 0;
      bufferViews, accessors, images, materials, meshesInfo, nodes := [], [], [], [], [], None;
      notifications := [];
      asked := 0;
      this.clock := clock;
      this.decode, this.baseMaterial, this.shaders, this.nodePrefab := decode, baseMaterial, shaders, nodePrefab;
      parser := Accessors.AccessorBuffer;
    }

    /** `StillHaveTime`: the next answer of the clock. */
    method StillHaveTime() returns (b: bool)
      modifies this`asked
      ensures b == Answer(clock, old(asked)) && asked == old(asked) + 1
    {
      b := clock(asked);
      asked := asked + 1;
    }

    /** `ResetState`: back to state -1 at index -1 with no data; the mesh
        records are not reset. */
    method ResetState()
      modifies this`currentState, this`currentIndex, this`glb, this`glbJsonRaw, this`glbJson, this`glbDataStart,
               this`bufferViews, this`accessors, this`materials, this`images, this`nodes, this`finished
      ensures currentState == -1 && currentIndex == -1
      ensures glb == [] && glbJsonRaw == [] && glbJson == Some(map[]) && glbDataStart == 0
      ensures bufferViews == [] && accessors == [] && materials == [] && images == [] && nodes == Some([])
      ensures !finished
    {
      currentState := -1;
      currentIndex := -1;
      glb := [];
      glbJsonRaw := [];
      glbJson := Some(map[]);
      glbDataStart := 0;
      bufferViews := [];
      accessors := [];
      materials := [];
      images := [];
      nodes := Some([]);
      finished := false;
    }

    /** `Clear`: announce the clearing, then reset. */
    method Clear()
      modifies this`currentState, this`currentIndex, this`glb, this`glbJsonRaw, this`glbJson, this`glbDataStart,
               this`bufferViews, this`accessors, this`materials, this`images, this`nodes, this`finished, this`notifications
      ensures notifications == old(notifications) + [SCENE_CLEARED]
      ensures currentState == -1 && currentIndex == -1
      ensures glb == [] && glbJsonRaw == [] && glbJson == Some(map[]) && glbDataStart == 0
      ensures bufferViews == [] && accessors == [] && materials == [] && images == [] && nodes == Some([])
      ensures !finished
    {
      notifications := notifications + [SCENE_CLEARED];
      ResetState();
    }

    /** `StartParsing`: state 0, and the engine runs `Update` again. */
    method StartParsing()
      modifies this`currentState, this`enabled
      ensures currentState == 0 && enabled
    {
      currentState := 0;
      enabled := true;
    }

    /** `OnStringLoadSuccess`: clear the scene, take the downloaded bytes
        and start over from the container at index -1. */
    method OnStringLoadSuccess(bytes: seq<byte>)
      modifies this`currentState, this`currentIndex, this`glb, this`glbJsonRaw, this`glbJson, this`glbDataStart,
               this`bufferViews, this`accessors, this`materials, this`images, this`nodes, this`finished, this`notifications,
               this`enabled
      ensures notifications == old(notifications) + [SCENE_CLEARED]
      ensures currentState == 0 && currentIndex == -1 && enabled && !finished
      ensures glb == bytes && glbJsonRaw == [] && glbJson == Some(map[]) && glbDataStart == 0
      ensures bufferViews == [] && accessors == [] && materials == [] && images == [] && nodes == Some([])
    {
      Clear();
      glb := bytes;
      StartParsing();
    }

    // -------------------------------------------------------------------
    // Stages 0 and 1: the container and the JSON document.

    /** `ParseMainData`: on an accepted container, the JSON bytes and the
        start of the binary payload; a rejected one is an error. */
    method ParseMainData(resumeFromIndex: int) returns (r: Run<int>)
      modifies this`glbJsonRaw, this`glbDataStart
      ensures Container.ParseMainData(glb).Fault? <==> r.Fault?
      ensures Container.ParseMainData(glb) == Ok(Container.Rejected) ==>
        r == Ok(ERROR) && glbJsonRaw == old(glbJsonRaw) && glbDataStart == old(glbDataStart)
      ensures Container.ParseMainData(glb).Ok? && Container.ParseMainData(glb).value.Accepted? ==>
        && r == Ok(COMPLETE)
        && glbJsonRaw == Container.ParseMainData(glb).value.json
        && glbDataStart == Container.ParseMainData(glb).value.dataStart
    {
      var layout := Container.ParseMainData(glb);
      if layout.Fault? {
        return Fault;
      }
      if layout.value.Rejected? {
        return Ok(ERROR);
      }
      glbDataStart := layout.value.dataStart;
      glbJsonRaw := layout.value.json;
      r := Ok(COMPLETE);
    }

    /** `ParseJsonData`: empty text or a document that is not a dictionary
        is an error. */
    method ParseJsonData(unused: int) returns (r: int)
      modifies this`glbJson
      ensures glbJsonRaw == [] ==> r == ERROR && glbJson == old(glbJson)
      ensures glbJsonRaw != [] && !decode(glbJsonRaw).Dict? ==> r == ERROR && glbJson == old(glbJson)
      ensures glbJsonRaw != [] && decode(glbJsonRaw).Dict? ==> r == COMPLETE && glbJson == Some(decode(glbJsonRaw).fields)
    {
      if glbJsonRaw == [] {
        return ERROR;
      }
      var result := decode(glbJsonRaw);
      if !result.Dict? {
        return ERROR;
      }
      glbJson := Some(result.fields);
      r := COMPLETE;
    }

    // -------------------------------------------------------------------
    // Stage 2: buffer views (never yields).

    /** `ParseBufferViews`: one record per view, over the whole array in
        one tick; a view that is not a dictionary makes the cast throw. */
    method ParseBufferViews(startFrom: int) returns (r: Run<int>)
      modifies this`bufferViews
      ensures glbJson.None? ==> r == Ok(ERROR) && bufferViews == old(bufferViews)
      ensures glbJson.Some? && startFrom == 0 && !HasList(glbJson.value, "bufferViews") ==>
        r == Ok(COMPLETE) && bufferViews == []
      ensures r.Ok? ==> r.value == ERROR || r.value == COMPLETE
      ensures glbJson.Some? && startFrom == 0 && HasList(glbJson.value, "bufferViews") ==>
        var list := glbJson.value["bufferViews"].items;
        && (r.Ok? <==> forall j :: 0 <= j < |list| ==> list[j].Dict?)
        && (r.Ok? ==> bufferViews == seq(|list|, j requires 0 <= j < |list| => Some(GetBufferViewInfo(list[j].fields))))
    {
      if glbJson.None? {
        return Ok(ERROR);
      }
      var json := glbJson.value;
      if startFrom == 0 && !HasList(json, "bufferViews") {
        bufferViews := [];
        return Ok(COMPLETE);
      }
      var listR := ListAt(json, "bufferViews");
      if listR.Fault? {
        return Fault;
      }
      var list := listR.value;
      if startFrom == 0 {
        bufferViews := seq(|list|, _ => None);
      }
      var nViews := |bufferViews|;
      var v := startFrom;
      while v < nViews
        invariant |bufferViews| == nViews
        invariant startFrom == 0 ==> nViews == |list| && 0 <= v <= nViews
        invariant startFrom == 0 ==> forall j :: 0 <= j < v ==> list[j].Dict? && bufferViews[j] == Some(GetBufferViewInfo(list[j].fields))
      {
        if v < 0 || v >= |list| {
          return Fault;
        }
        if !list[v].Dict? {
          return Fault;
        }
        bufferViews := bufferViews[v := Some(GetBufferViewInfo(list[v].fields))];
        v := v + 1;
      }
      r := Ok(COMPLETE);
    }

    // -------------------------------------------------------------------
    // Stage 3: accessor records.

    /** `ParseAccessors`: from the cursor on, one unparsed record per
        accessor dictionary, yielding when time runs out.  A fresh start
        never throws. */
    method ParseAccessors(startFrom: int) returns (r: Run<int>)
      modifies this`accessors, this`asked
      ensures glbJson.None? ==> r == Ok(ERROR) && accessors == old(accessors) && asked == old(asked)
      ensures glbJson.Some? && startFrom == 0 && !HasList(glbJson.value, "accessors") ==>
        r == Ok(COMPLETE) && accessors == [] && asked == old(asked)
      ensures glbJson.Some? && (startFrom != 0 || HasList(glbJson.value, "accessors")) && r.Ok? ==>
        && 0 <= startFrom && ListAt(glbJson.value, "accessors").Ok?
        && var list := ListAt(glbJson.value, "accessors").value;
           StageResult(clock, old(asked), asked, Blank(old(accessors), startFrom, |list|), accessors, list, startFrom, AccessorSlotOf, r.value)
      ensures r.Fault? ==> startFrom != 0
      ensures r.Ok? ==> r.value == ERROR || r.value == COMPLETE || startFrom < r.value
    {
      if glbJson.None? {
        return Ok(ERROR);
      }
      var json := glbJson.value;
      if startFrom == 0 && !HasList(json, "accessors") {
        accessors := [];
        return Ok(COMPLETE);
      }
      var listR := ListAt(json, "accessors");
      if listR.Fault? {
        return Fault;
      }
      var list := listR.value;
      var n := |list|;
      if startFrom == 0 {
        accessors := seq(n, _ => None);
      }
      if startFrom < 0 {
        return Fault;
      }
      r := AccessorsFrom(list, startFrom);
    }

    /** The loop of `ParseAccessors`; it throws only when the records are
        shorter than the accessor list. */
    method AccessorsFrom(list: seq<Token>, startFrom: nat) returns (r: Run<int>)
      modifies this`accessors, this`asked
      ensures r.Ok? ==> StageResult(clock, old(asked), asked, old(accessors), accessors, list, startFrom, AccessorSlotOf, r.value)
      ensures r.Fault? ==> |old(accessors)| < |list|
      ensures r.Ok? ==> r.value == COMPLETE || startFrom < r.value
    {
      var n := |list|;
      ghost var at := asked;
      ghost var base := accessors;
      var i := startFrom;
      while i < n
        invariant startFrom <= i && (i <= n || i == startFrom)
        invariant asked == at + (i - startFrom)
        invariant AllYes(clock, at + 1, asked)
        invariant Fill(base, list, startFrom, if i <= n then i else n, AccessorSlotOf) == Ok(accessors)
        invariant |accessors| == |base|
      {
        var t := StillHaveTime();
        if i != startFrom && !t {
          StageYields(clock, at, asked, base, accessors, list, startFrom, AccessorSlotOf, i);
          return Ok(i);
        }
        AllYesStep(clock, at + 1, asked - 1);
        AccessorStep(base, list, startFrom, i, accessors);
        if list[i].Dict? {
          if i >= |accessors| {
            return Fault;
          }
          accessors := accessors[i := Some(NewSlot(list[i].fields))];
        }
        i := i + 1;
      }
      StageCompletes(clock, at, asked, base, accessors, list, startFrom, AccessorSlotOf, i);
      r := Ok(COMPLETE);
    }

    // -------------------------------------------------------------------
    // The accessor cache and the meshes.

    /** `GetAccessorBuffer`: a lookup in the accessor records, which
        stores a buffer the first time one is parsed. */
    method GetAccessorBuffer(accessorIndex: int, options: Accessors.ParseOptions) returns (r: Run<Option<Accessors.TypedBuffer>>)
      modifies this`accessors
      ensures var l := CacheLookup(old(accessors), accessorIndex, parser, glb, glbDataStart, bufferViews, options);
        r == l.buffer && accessors == l.cache
    {
      if accessorIndex < 0 || accessorIndex >= |accessors| {
        return Ok(None);
      }
      var accessor := accessors[accessorIndex];
      if accessor.None? {
        return Ok(None);
      }
      if accessor.value.parsed {
        return Ok(accessor.value.buffer);
      }
      r := parser(glb, glbDataStart, bufferViews, accessor.value.info, options);
      if r.Ok? && r.value.Some? {
        accessors := accessors[accessorIndex := Some(accessor.value.(parsed := true, buffer := r.value))];
      }
    }

    /** `LoadMeshFrom`: the submesh whose four accessor indices start at
        `startOffset`; reading them past the array throws. */
    method LoadMeshFrom(meshInfo: seq<int>, startOffset: int) returns (r: Run<SubmeshData>)
      modifies this`accessors
      ensures !(0 <= startOffset && startOffset + 4 <= |meshInfo|) ==> r.Fault? && accessors == old(accessors)
      ensures 0 <= startOffset && startOffset + 4 <= |meshInfo| ==>
        var m := SubmeshFrom(old(accessors), parser, glb, glbDataStart, bufferViews, meshInfo[startOffset], meshInfo[startOffset + 1],
                             meshInfo[startOffset + 2], meshInfo[startOffset + 3]);
        && (r.Fault? <==> m.Fault?)
        && (m.Ok? ==> r.value == m.value.submesh && accessors == m.value.cache)
    {
      if startOffset < 0 || startOffset + 4 > |meshInfo| {
        return Fault;
      }
      var positions, normals, uvs, indices := meshInfo[startOffset], meshInfo[startOffset + 1], meshInfo[startOffset + 2], meshInfo[startOffset + 3];
      var positionsBuffer := GetAccessorBuffer(positions, PositionOptions);
      if positionsBuffer.Fault? {
        return Fault;
      }
      if positionsBuffer.value.None? {
        return Ok(EmptySubmesh);
      }
      var indicesBuffer := GetAccessorBuffer(indices, IndexOptions);
      if indicesBuffer.Fault? {
        return Fault;
      }
      if indicesBuffer.value.None? {
        return Ok(EmptySubmesh);
      }
      var pos, idx := positionsBuffer.value.value, indicesBuffer.value.value;
      if !pos.Vector3Array? || !IsIndexBuffer(idx) {
        return Ok(EmptySubmesh);
      }
      var normalsBuffer := GetAccessorBuffer(normals, NormalOptions);
      if normalsBuffer.Fault? {
        return Fault;
      }
      var uvsBuffer := GetAccessorBuffer(uvs, UvOptions);
      if uvsBuffer.Fault? {
        return Fault;
      }
      var n, u := normalsBuffer.value, uvsBuffer.value;
      r := Ok(SubmeshData(
        pos.vec3s,
        if n.Some? && n.value.Vector3Array? then Some(n.value.vec3s) else None,
        if u.Some? && u.value.Vector2Array? then Some(u.value.vec2s) else None,
        Some(IndexBufferOf(idx)),
        n.None?));
    }

    /** One turn of the loop of `LoadMesh`: `LoadMeshFrom` at offset
        4 * s extends the submeshes loaded so far by one, or throws. */
    method LoadSubmesh(meshViews: seq<int>, s: nat, ghost cache: Cache, ghost subs: seq<SubmeshData>) returns (sub: Run<SubmeshData>)
      requires 4 * (s + 1) <= |meshViews|
      requires LoadSubmeshes(cache, parser, glb, glbDataStart, bufferViews, meshViews, s) == Ok((subs, accessors))
      modifies this`accessors
      ensures sub.Fault? ==> LoadSubmeshes(cache, parser, glb, glbDataStart, bufferViews, meshViews, s + 1).Fault?
      ensures sub.Ok? ==> LoadSubmeshes(cache, parser, glb, glbDataStart, bufferViews, meshViews, s + 1) == Ok((subs + [sub.value], accessors))
    {
      ghost var before := accessors;
      sub := LoadMeshFrom(meshViews, 4 * s);
      SubmeshesStep(cache, parser, glb, glbDataStart, bufferViews, meshViews, s, (subs, before));
    }

    /** `LoadMesh`: nothing when `GetMeshInfo` fails; otherwise one
        submesh per usable primitive, the wrapping vertex total choosing
        the index format. */
    method LoadMesh(mesh: Dictionary) returns (r: Run<Option<MeshSlot>>)
      modifies this`accessors
      ensures var m := MeshFrom(old(accessors), parser, glb, glbDataStart, bufferViews, mesh);
        && (r.Fault? <==> m.Fault?)
        && (m.Ok? ==> r.value == m.value.0 && accessors == m.value.1)
    {
      var ok, info := GetMeshInfo(mesh);
      if !ok {
        return Ok(None);
      }
      ghost var cache := accessors;
      assert 4 * info.nSubmeshes <= |info.views|;
      var subs: seq<SubmeshData> := [];
      var indicesSum := 0;
      var s := 0;
      while s < info.nSubmeshes
        invariant 0 <= s <= info.nSubmeshes
        invariant LoadSubmeshes(cache, parser, glb, glbDataStart, bufferViews, info.views, s) == Ok((subs, accessors))
        invariant indicesSum == VertexSum(subs)
      {
        var sub := LoadSubmesh(info.views, s, cache, subs);
        if sub.Fault? {
          SubmeshesFaultPersists(cache, parser, glb, glbDataStart, bufferViews, info.views, s + 1, info.nSubmeshes);
          return Fault;
        }
        indicesSum := AddVertexCount(indicesSum, subs, sub.value);
        subs := subs + [sub.value];
        s := s + 1;
      }
      r := Ok(Some(MeshSlot(MeshData(subs, IndexFormatFor(indicesSum)), info.materials)));
    }

    // -------------------------------------------------------------------
    // Stages 4 and 5: images and materials.

    /** `ParseImages`: one texture per image dictionary from the cursor
        on, yielding when time runs out.  Whether this is a fresh start is
        read from `currentIndex`, not from the cursor it is given. */
    method ParseImages(startFrom: int) returns (r: Run<int>)
      modifies this`images, this`asked
      ensures glbJson.None? ==> r == Ok(ERROR) && images == old(images) && asked == old(asked)
      ensures glbJson.Some? && currentIndex == 0 && !HasList(glbJson.value, "images") ==>
        r == Ok(COMPLETE) && images == [] && asked == old(asked)
      ensures glbJson.Some? && (currentIndex != 0 || HasList(glbJson.value, "images")) && r.Ok? ==>
        && 0 <= startFrom && ListAt(glbJson.value, "images").Ok?
        && var list := ListAt(glbJson.value, "images").value;
           StageResult(clock, old(asked), asked, Blank(old(images), currentIndex, |list|), images, list, startFrom,
                       ImageSlotFor(glb, glbDataStart, bufferViews), r.value)
      ensures r.Ok? ==> r.value == ERROR || r.value == COMPLETE || startFrom < r.value
    {
      if glbJson.None? {
        return Ok(ERROR);
      }
      var json := glbJson.value;
      if currentIndex == 0 && !HasList(json, "images") {
        images := [];
        return Ok(COMPLETE);
      }
      var listR := ListAt(json, "images");
      if listR.Fault? {
        return Fault;
      }
      var list := listR.value;
      if currentIndex == 0 {
        images := seq(|list|, _ => None);
      }
      if startFrom < 0 {
        return Fault;
      }
      r := ImagesFrom(list, startFrom);
    }

    /** The loop of `ParseImages`. */
    method ImagesFrom(list: seq<Token>, startFrom: nat) returns (r: Run<int>)
      modifies this`images, this`asked
      ensures r.Ok? ==> StageResult(clock, old(asked), asked, old(images), images, list, startFrom,
                                    ImageSlotFor(glb, glbDataStart, bufferViews), r.value)
      ensures r.Ok? ==> r.value == COMPLETE || startFrom < r.value
    {
      var n := |list|;
      ghost var at := asked;
      ghost var base := images;
      ghost var slot := ImageSlotFor(glb, glbDataStart, bufferViews);
      var i := startFrom;
      while i < n
        invariant startFrom <= i && (i <= n || i == startFrom)
        invariant asked == at + (i - startFrom)
        invariant AllYes(clock, at + 1, asked)
        invariant Fill(base, list, startFrom, if i <= n then i else n, slot) == Ok(images)
      {
        var t := StillHaveTime();
        if i != startFrom && !t {
          StageYields(clock, at, asked, base, images, list, startFrom, slot, i);
          return Ok(i);
        }
        AllYesStep(clock, at + 1, asked - 1);
        var ok := VisitImage(list, startFrom, i, base);
        if !ok {
          return Fault;
        }
        i := i + 1;
      }
      StageCompletes(clock, at, asked, base, images, list, startFrom, slot, i);
      r := Ok(COMPLETE);
    }

    /** One pass of the loop of `ParseImages`: the texture of image i, if
        it is a dictionary, goes into slot i. */
    method VisitImage(list: seq<Token>, ghost startFrom: nat, i: nat, ghost base: seq<Option<Materials.Texture>>) returns (ok: bool)
      requires startFrom <= i < |list|
      requires Fill(base, list, startFrom, i, ImageSlotFor(glb, glbDataStart, bufferViews)) == Ok(images)
      modifies this`images
      ensures ok ==> Fill(base, list, startFrom, i + 1, ImageSlotFor(glb, glbDataStart, bufferViews)) == Ok(images)
    {
      FillStep(base, list, startFrom, i, ImageSlotFor(glb, glbDataStart, bufferViews), images);
      if list[i].Dict? {
        var texture := ImageOf(list[i].fields, glb, glbDataStart, bufferViews);
        if texture.Fault? || i >= |images| {
          return false;
        }
        images := images[i := texture.value];
      }
      ok := true;
    }

    /** `ParseMaterials`: one material per dictionary from the cursor on,
        null for any other token, yielding when time runs out. */
    method ParseMaterials(startFrom: int) returns (r: Run<int>)
      modifies this`materials, this`asked
      ensures glbJson.None? ==> r == Ok(ERROR) && materials == old(materials) && asked == old(asked)
      ensures glbJson.Some? && startFrom == 0 && !HasList(glbJson.value, "materials") ==>
        r == Ok(COMPLETE) && materials == [] && asked == old(asked)
      ensures glbJson.Some? && (startFrom != 0 || HasList(glbJson.value, "materials")) && r.Ok? ==>
        && 0 <= startFrom && ListAt(glbJson.value, "materials").Ok?
        && var list := ListAt(glbJson.value, "materials").value;
           StageResult(clock, old(asked), asked, Blank(old(materials), startFrom, |list|), materials, list, startFrom,
                       MaterialSlotFor(baseMaterial, shaders, images), r.value)
      ensures r.Ok? ==> r.value == ERROR || r.value == COMPLETE || startFrom < r.value
    {
      if glbJson.None? {
        return Ok(ERROR);
      }
      var json := glbJson.value;
      if startFrom == 0 && !HasList(json, "materials") {
        materials := [];
        return Ok(COMPLETE);
      }
      var listR := ListAt(json, "materials");
      if listR.Fault? {
        return Fault;
      }
      var list := listR.value;
      var n := |list|;
      if startFrom == 0 {
        materials := seq(n, _ => None);
      }
      if startFrom < 0 {
        return Fault;
      }
      r := MaterialsFrom(list, startFrom);
    }

    /** The loop of `ParseMaterials`. */
    method MaterialsFrom(list: seq<Token>, startFrom: nat) returns (r: Run<int>)
      modifies this`materials, this`asked
      ensures r.Ok? ==> StageResult(clock, old(asked), asked, old(materials), materials, list, startFrom,
                                    MaterialSlotFor(baseMaterial, shaders, images), r.value)
      ensures r.Ok? ==> r.value == COMPLETE || startFrom < r.value
    {
      var n := |list|;
      ghost var at := asked;
      ghost var base := materials;
      ghost var slot := MaterialSlotFor(baseMaterial, shaders, images);
      var m := startFrom;
      while m < n
        invariant startFrom <= m && (m <= n || m == startFrom)
        invariant asked == at + (m - startFrom)
        invariant AllYes(clock, at + 1, asked)
        invariant Fill(base, list, startFrom, if m <= n then m else n, slot) == Ok(materials)
      {
        var t := StillHaveTime();
        if m != startFrom && !t {
          StageYields(clock, at, asked, base, materials, list, startFrom, slot, m);
          return Ok(m);
        }
        AllYesStep(clock, at + 1, asked - 1);
        var ok := VisitMaterial(list, startFrom, m, base);
        if !ok {
          return Fault;
        }
        m := m + 1;
      }
      StageCompletes(clock, at, asked, base, materials, list, startFrom, slot, m);
      r := Ok(COMPLETE);
    }

    /** One pass of the loop of `ParseMaterials`: slot m gets the material
        created from dictionary m, or null for any other token. */
    method VisitMaterial(list: seq<Token>, ghost startFrom: nat, m: nat, ghost base: seq<Option<Materials.MaterialState>>) returns (ok: bool)
      requires startFrom <= m < |list|
      requires Fill(base, list, startFrom, m, MaterialSlotFor(baseMaterial, shaders, images)) == Ok(materials)
      modifies this`materials
      ensures ok ==> Fill(base, list, startFrom, m + 1, MaterialSlotFor(baseMaterial, shaders, images)) == Ok(materials)
    {
      FillStep(base, list, startFrom, m, MaterialSlotFor(baseMaterial, shaders, images), materials);
      if !list[m].Dict? {
        if m >= |materials| {
          return false;
        }
        materials := materials[m := None];
      } else {
        var material := Materials.CreateMaterialFrom(baseMaterial, list[m].fields, shaders, images);
        if material.Fault? || m >= |materials| {
          return false;
        }
        materials := materials[m := Some(material.value.State())];
      }
      ok := true;
    }

    // -------------------------------------------------------------------
    // Stage 6: meshes.

    /** `ParseMeshes`: every mesh dictionary from the cursor on is loaded
        and stored; time is asked for only after a mesh was stored, so the
        loop yields at the index of the mesh it stored last. */
    method ParseMeshes(startFrom: int) returns (r: Run<int>)
      modifies this`meshesInfo, this`accessors, this`asked
      ensures glbJson.None? ==> r == Ok(ERROR) && meshesInfo == old(meshesInfo) && accessors == old(accessors) && asked == old(asked)
      ensures glbJson.Some? && startFrom == 0 && !HasList(glbJson.value, "meshes") ==>
        r == Ok(COMPLETE) && meshesInfo == [] && accessors == old(accessors) && asked == old(asked)
      ensures glbJson.Some? && (startFrom != 0 || HasList(glbJson.value, "meshes")) && r.Ok? ==>
        && 0 <= startFrom && ListAt(glbJson.value, "meshes").Ok?
        && var list := ListAt(glbJson.value, "meshes").value;
           MeshStageResult(clock, old(asked), asked, Blank(old(meshesInfo), startFrom, |list|), old(accessors),
                           meshesInfo, accessors, list, startFrom, parser, glb, glbDataStart, bufferViews, r.value)
      ensures r.Ok? ==> r.value == ERROR || r.value == COMPLETE || startFrom < r.value
    {
      if glbJson.None? {
        return Ok(ERROR);
      }
      var json := glbJson.value;
      if startFrom == 0 && !HasList(json, "meshes") {
        meshesInfo := [];
        return Ok(COMPLETE);
      }
      var listR := ListAt(json, "meshes");
      if listR.Fault? {
        return Fault;
      }
      var list := listR.value;
      var n := |list|;
      if startFrom == 0 {
        meshesInfo := seq(n, _ => None);
      }
      if startFrom < 0 {
        return Fault;
      }
      r := MeshesFrom(list, startFrom);
    }

    /** The loop of `ParseMeshes` from `startFrom` on: time is asked only
        after a mesh was stored, and a refusal is acted on at any index but
        the first. */
    method MeshesFrom(list: seq<Token>, startFrom: nat) returns (r: Run<int>)
      modifies this`meshesInfo, this`accessors, this`asked
      ensures r.Ok? ==> MeshStageResult(clock, old(asked), asked, old(meshesInfo), old(accessors),
                                        meshesInfo, accessors, list, startFrom, parser, glb, glbDataStart, bufferViews, r.value)
      ensures r.Ok? ==> r.value == COMPLETE || startFrom < r.value
    {
      ghost var at := asked;
      ghost var base := meshesInfo;
      ghost var cache := accessors;
      ghost var asks := MeshAsks(list);
      var n := |list|;
      if startFrom > n {
        LatePastEnd(clock, at, asks, startFrom);
        return Ok(COMPLETE);
      }
      LateBegins(clock, at, asks, startFrom);
      var m := startFrom;
      while m < n
        invariant LateAt(clock, at, asks, startFrom, m, asked)
        invariant MeshesFilled(base, cache, list, startFrom, m, parser, glb, glbDataStart, bufferViews) == Ok((meshesInfo, accessors))
      {
        var wrote := VisitMesh(list, startFrom, m, base, cache);
        if wrote.Fault? {
          return Fault;
        }
        var stop := AskAfterMesh(asks, at, startFrom, m, wrote.value);
        if stop {
          MeshStageStops(clock, at, asked, base, cache, meshesInfo, accessors, list, startFrom, parser, glb, glbDataStart, bufferViews, m);
          return Ok(m);
        }
        m := m + 1;
      }
      MeshStageEnds(clock, at, asked, base, cache, meshesInfo, accessors, list, startFrom, parser, glb, glbDataStart, bufferViews);
      r := Ok(COMPLETE);
    }

    /** The test after a visit of the mesh loop: when a mesh was stored,
        time is asked (even at the first index, the `&` does not short-
        circuit) and a "no" at any other index stops the loop there. */
    method AskAfterMesh(ghost asks: seq<bool>, ghost at: nat, startFrom: nat, m: nat, wrote: bool) returns (stop: bool)
      requires LateAt(clock, at, asks, startFrom, m, asked) && m < |asks| && asks[m] == wrote
      modifies this`asked
      ensures !stop ==> LateAt(clock, at, asks, startFrom, m + 1, asked)
      ensures stop ==> && LateCode(clock, at, asks, startFrom) == m
                       && LateEnd(clock, at, asks, startFrom) == m + 1
                       && asked == at + AskedCount(asks, startFrom, m + 1)
    {
      stop := false;
      if wrote {
        var t := StillHaveTime();
        if m != startFrom && !t {
          LateYields(clock, at, asks, startFrom, m, asked - 1);
          stop := true;
          return;
        }
        LateGoesOn(clock, at, asks, startFrom, m, asked - 1);
      } else {
        LateSkips(clock, at, asks, startFrom, m, asked);
      }
    }

    /** One visit of the mesh loop: a token that is not a dictionary is
        skipped, a dictionary that yields no mesh leaves the slots as they
        are, and a mesh is stored at index m.  The result says whether one
        was stored. */
    method VisitMesh(list: seq<Token>, ghost startFrom: nat, m: nat, ghost base: seq<Option<MeshSlot>>, ghost cache: Cache)
      returns (r: Run<bool>)
      requires startFrom <= m < |list|
      requires MeshesFilled(base, cache, list, startFrom, m, parser, glb, glbDataStart, bufferViews) == Ok((meshesInfo, accessors))
      modifies this`meshesInfo, this`accessors
      ensures r.Ok? ==> r.value == MeshWritten(list[m])
      ensures r.Ok? ==> MeshesFilled(base, cache, list, startFrom, m + 1, parser, glb, glbDataStart, bufferViews) == Ok((meshesInfo, accessors))
    {
      ghost var done := (meshesInfo, accessors);
      var token := list[m];
      if !token.Dict? {
        MeshesStep(base, cache, list, startFrom, m, done, parser, glb, glbDataStart, bufferViews);
        return Ok(false);
      }
      var mesh := LoadMesh(token.fields);
      MeshesStep(base, cache, list, startFrom, m, done, parser, glb, glbDataStart, bufferViews);
      if mesh.Fault? {
        return Fault;
      }
      if mesh.value.None? {
        return Ok(false);
      }
      if m >= |meshesInfo| {
        return Fault;
      }
      meshesInfo := meshesInfo[m := mesh.value];
      r := Ok(true);
    }

    // -------------------------------------------------------------------
    // Stages 7 and 8: nodes.

    /** `SpawnNodes`: a fresh prefab instance at every index from the
        cursor on, yielding when time runs out.  Without a "nodes" list
        the node array is left as it was. */
    method SpawnNodes(startFrom: int) returns (r: Run<int>)
      modifies this`nodes, this`asked
      ensures glbJson.None? ==> r == Ok(ERROR) && nodes == old(nodes) && asked == old(asked)
      ensures glbJson.Some? && startFrom == 0 && !HasList(glbJson.value, "nodes") ==>
        r == Ok(COMPLETE) && nodes == old(nodes) && asked == old(asked)
      ensures glbJson.Some? && (startFrom != 0 || HasList(glbJson.value, "nodes")) && r.Ok? ==>
        && 0 <= startFrom && ListAt(glbJson.value, "nodes").Ok?
        && (nodes.Some? <==> startFrom == 0 || old(nodes).Some?)
        && var list := ListAt(glbJson.value, "nodes").value;
           StageResult(clock, old(asked), asked, Blank(NodesOrEmpty(old(nodes)), startFrom, |list|), NodesOrEmpty(nodes), list,
                       startFrom, SpawnSlotFor(nodePrefab), r.value)
      ensures r.Ok? ==> r.value == ERROR || r.value == COMPLETE || startFrom < r.value
    {
      if glbJson.None? {
        return Ok(ERROR);
      }
      var json := glbJson.value;
      if startFrom == 0 && !HasList(json, "nodes") {
        return Ok(COMPLETE);
      }
      var listR := ListAt(json, "nodes");
      if listR.Fault? {
        return Fault;
      }
      var list := listR.value;
      var n := |list|;
      if startFrom == 0 {
        nodes := Some(seq(n, _ => None));
      }
      if startFrom < 0 {
        return Fault;
      }
      r := SpawnFrom(list, startFrom);
    }

    /** The loop of `SpawnNodes`. */
    method SpawnFrom(list: seq<Token>, startFrom: nat) returns (r: Run<int>)
      modifies this`nodes, this`asked
      ensures r.Ok? ==> nodes.Some? == old(nodes).Some?
      ensures r.Ok? ==>
        StageResult(clock, old(asked), asked, NodesOrEmpty(old(nodes)), NodesOrEmpty(nodes), list, startFrom, SpawnSlotFor(nodePrefab), r.value)
      ensures r.Ok? ==> r.value == COMPLETE || startFrom < r.value
    {
      var n := |list|;
      ghost var at := asked;
      ghost var base := NodesOrEmpty(nodes);
      ghost var slot := SpawnSlotFor(nodePrefab);
      ghost var had := nodes.Some?;
      var i := startFrom;
      while i < n
        invariant startFrom <= i && (i <= n || i == startFrom)
        invariant asked == at + (i - startFrom)
        invariant AllYes(clock, at + 1, asked)
        invariant nodes.Some? == had
        invariant Fill(base, list, startFrom, if i <= n then i else n, slot) == Ok(NodesOrEmpty(nodes))
      {
        var t := StillHaveTime();
        if i != startFrom && !t {
          StageYields(clock, at, asked, base, NodesOrEmpty(nodes), list, startFrom, slot, i);
          return Ok(i);
        }
        AllYesStep(clock, at + 1, asked - 1);
        FillStep(base, list, startFrom, i, slot, NodesOrEmpty(nodes));
        if nodes.None? || i >= |nodes.value| {
          return Fault;
        }
        nodes := Some(nodes.value[i := Some(Instance(nodePrefab))]);
        i := i + 1;
      }
      StageCompletes(clock, at, asked, base, NodesOrEmpty(nodes), list, startFrom, slot, i);
      r := Ok(COMPLETE);
    }

    /** `SetupMesh`: the node's filter and renderer get the mesh record's
        mesh and one material per material index. */
    method SetupMesh(node: NodeState, meshIndex: int, maxMeshIndex: int) returns (r: Run<NodeState>)
      ensures r == WithMesh(node, meshesInfo, meshIndex, maxMeshIndex, |materials|)
    {
      if meshIndex < 0 || meshIndex > maxMeshIndex {
        return Ok(node);
      }
      if meshIndex >= |meshesInfo| {
        return Fault;
      }
      var meshInfo := meshesInfo[meshIndex];
      if meshInfo.None? {
        return Ok(node);
      }
      var materialsIndices := meshInfo.value.materials;
      var nIndices := |materialsIndices|;
      var nKnown := |materials|;
      var shared: seq<SharedMaterial> := [];
      var k := 0;
      while k < nIndices
        invariant 0 <= k <= nIndices && |shared| == k
        invariant forall j :: 0 <= j < k ==>
          shared[j] == (if 0 <= materialsIndices[j] < nKnown then Known(materialsIndices[j]) else NewMaterial)
      {
        var materialIndex := materialsIndices[k];
        if 0 <= materialIndex < nKnown {
          shared := shared + [Known(materialIndex)];
        } else {
          shared := shared + [NewMaterial];
        }
        k := k + 1;
      }
      assert shared == MaterialsFor(materialsIndices, nKnown);
      r := Ok(node.(mesh := Some(meshInfo.value.mesh), materials := Some(shared)));
    }

    /** `SetupNodes`: from the cursor on, every node dictionary sets up
        its spawned object (mesh, name, flipped transform) and parents
        its listed children to it, yielding when time runs out. */
    method SetupNodes(startFrom: int) returns (r: Run<int>)
      modifies this`nodes, this`asked
      ensures glbJson.None? ==> r == Ok(ERROR) && nodes == old(nodes) && asked == old(asked)
      ensures glbJson.Some? && startFrom == 0 && (old(nodes).None? || old(nodes).value == []) ==>
        r == Ok(COMPLETE) && nodes == old(nodes) && asked == old(asked)
      ensures glbJson.Some? && !(startFrom == 0 && (old(nodes).None? || old(nodes).value == [])) && r.Ok? ==>
        && 0 <= startFrom && ListAt(glbJson.value, "nodes").Ok?
        && nodes.Some? == old(nodes).Some?
        && SetupResult(clock, old(asked), asked, NodesOrEmpty(old(nodes)), NodesOrEmpty(nodes), ListAt(glbJson.value, "nodes").value,
                       startFrom, meshesInfo, |meshesInfo| - 1, |materials|, r.value)
      ensures r.Ok? ==> r.value == ERROR || r.value == COMPLETE || startFrom < r.value
    {
      if glbJson.None? {
        return Ok(ERROR);
      }
      if startFrom == 0 && (nodes.None? || nodes.value == []) {
        return Ok(COMPLETE);
      }
      var listR := ListAt(glbJson.value, "nodes");
      if listR.Fault? {
        return Fault;
      }
      var list := listR.value;
      var nNodes := |list|;
      var maxMeshIndex := |meshesInfo| - 1;
      if startFrom < 0 {
        return Fault;
      }
      r := NodesFrom(list, startFrom);
    }

    /** The loop of `SetupNodes`. */
    method NodesFrom(list: seq<Token>, startFrom: nat) returns (r: Run<int>)
      modifies this`nodes, this`asked
      ensures r.Ok? ==> nodes.Some? == old(nodes).Some?
      ensures r.Ok? ==> SetupResult(clock, old(asked), asked, NodesOrEmpty(old(nodes)), NodesOrEmpty(nodes), list,
                                    startFrom, meshesInfo, |meshesInfo| - 1, |materials|, r.value)
      ensures r.Ok? ==> r.value == COMPLETE || startFrom < r.value
    {
      var nNodes := |list|;
      var maxMeshIndex := |meshesInfo| - 1;
      ghost var at := asked;
      ghost var base := NodesOrEmpty(nodes);
      ghost var had := nodes.Some?;
      var n := startFrom;
      while n < nNodes
        invariant startFrom <= n && (n <= nNodes || n == startFrom)
        invariant asked == at + (n - startFrom)
        invariant AllYes(clock, at + 1, asked)
        invariant nodes.Some? == had
        invariant SetupRange(base, list, startFrom, if n <= nNodes then n else nNodes, meshesInfo, maxMeshIndex, |materials|) ==
          Ok(NodesOrEmpty(nodes))
      {
        var t := StillHaveTime();
        if n != startFrom && !t {
          StoppedAt(clock, at, startFrom, n, nNodes);
          return Ok(n);
        }
        AllYesStep(clock, at + 1, asked - 1);
        var ok := VisitNode(list, startFrom, n, base, maxMeshIndex);
        if !ok {
          return Fault;
        }
        n := n + 1;
      }
      Completed(clock, at, startFrom, n, nNodes);
      r := Ok(COMPLETE);
    }

    /** One pass of the loop of `SetupNodes`: node dictionary n sets up
        its spawned object and parents its children to it. */
    method VisitNode(list: seq<Token>, ghost startFrom: nat, n: nat, ghost base: seq<Option<NodeState>>, maxMeshIndex: int)
      returns (ok: bool)
      requires startFrom <= n < |list| && maxMeshIndex == |meshesInfo| - 1
      requires SetupRange(base, list, startFrom, n, meshesInfo, maxMeshIndex, |materials|) == Ok(NodesOrEmpty(nodes))
      modifies this`nodes
      ensures ok ==> nodes.Some? == old(nodes).Some?
      ensures ok ==> SetupRange(base, list, startFrom, n + 1, meshesInfo, maxMeshIndex, |materials|) == Ok(NodesOrEmpty(nodes))
    {
      var token := list[n];
      if !token.Dict? {
        SetupRangeStep(base, list, startFrom, n, meshesInfo, maxMeshIndex, |materials|, NodesOrEmpty(nodes));
        return true;
      }
      var info := ParseNode(token.fields);
      if info.Fault? {
        return false;
      }
      if nodes.None? || n >= |nodes.value| || nodes.value[n].None? {
        return false;
      }
      var meshed := SetupMesh(nodes.value[n].value, info.value.mesh, maxMeshIndex);
      if meshed.Fault? {
        return false;
      }
      var node := meshed.value.(name := info.value.name, position := FlipPosition(info.value.position),
                                rotation := FlipRotation(info.value.rotation), scale := info.value.scale);
      SetupRangeReparents(base, list, startFrom, n, meshesInfo, maxMeshIndex, |materials|, nodes.value, info.value, node);
      ok := PlaceNode(n, node, info.value.children, |list|);
    }

    /** The end of a visit: node n is stored, then its children loop runs. */
    method PlaceNode(n: nat, node: NodeState, children: seq<int>, nNodes: int) returns (ok: bool)
      requires nodes.Some? && n < |nodes.value|
      modifies this`nodes
      ensures nodes.Some?
      ensures ok ==> Reparent(old(nodes).value[n := Some(node)], children, n, nNodes) == Ok(nodes.value)
    {
      nodes := Some(nodes.value[n := Some(node)]);
      ok := ParentChildren(children, n, nNodes);
    }

    /** The children loop of `SetupNodes`: every child index in
        [0, nNodes) gets node n as its parent, unless Unity's `SetParent`
        refuses because the child is n or one of its ancestors. */
    method ParentChildren(children: seq<int>, n: nat, nNodes: int) returns (ok: bool)
      requires nodes.Some?
      modifies this`nodes
      ensures nodes.Some?
      ensures ok == Reparent(old(nodes).value, children, n, nNodes).Ok?
      ensures ok ==> Reparent(old(nodes).value, children, n, nNodes) == Ok(nodes.value)
    {
      ghost var placed := nodes.value;
      var c := 0;
      while c < |children|
        invariant 0 <= c <= |children|
        invariant nodes.Some?
        invariant Reparent(placed, children[..c], n, nNodes) == Ok(nodes.value)
      {
        assert children[..c + 1][..c] == children[..c];
        var childIndex := children[c];
        if childIndex < 0 || childIndex >= nNodes {
          c := c + 1;
          continue;
        }
        if childIndex >= |nodes.value| || nodes.value[childIndex].None? {
          FaultReparentPersists(placed, children, c + 1, n, nNodes);
          return false;
        }
        if Parents.Refused(Links(nodes.value), childIndex, n) {
          c := c + 1;
          continue;
        }
        nodes := Some(nodes.value[childIndex := Some(nodes.value[childIndex].value.(parent := Some(n)))]);
        c := c + 1;
      }
      assert children[..|children|] == children;
      ok := true;
    }
    // -------------------------------------------------------------------
    // The tick.

    /** `TriggerNextIteration`, with `ParseComplete` and `ParseError`: the
        transition `Schedule.Next` describes, its event broadcast, and the
        component disabled when the transition stops the load. */
    method TriggerNextIteration()
      modifies this`currentState, this`currentIndex, this`enabled, this`notifications
      ensures var t := Next(old(currentState), old(currentIndex), finished);
        && currentState == t.state && currentIndex == t.index
        && enabled == (t.enabled && old(enabled))
        && notifications == old(notifications) + Events(t.signal)
    {
      if finished {
        notifications := notifications + [SCENE_LOADED];
        enabled := false;
        return;
      }
      if currentIndex == ERROR {
        notifications := notifications + [PARSE_ERROR];
        enabled := false;
        return;
      }
      if currentIndex == COMPLETE {
        currentState := currentState + 1;
        currentIndex := 0;
      }
    }

    /** The stage of the current state run from the current cursor: the
        code it returns, or `Fault` when it threw.  A state past the last
        stage marks the load finished and keeps the cursor. */
    method RunStage() returns (r: Run<int>)
      modifies this`glbJsonRaw, this`glbDataStart, this`glbJson, this`bufferViews, this`accessors, this`images,
               this`materials, this`meshesInfo, this`nodes, this`asked, this`finished
      ensures finished == (old(finished) || !(0 <= currentState <= LAST_STAGE))
      ensures !(0 <= currentState <= LAST_STAGE) ==> r == Ok(currentIndex)
      ensures 0 <= currentState <= LAST_STAGE && r.Ok? ==>
        r.value == ERROR || r.value == COMPLETE || currentIndex < r.value
    {
      if 0 <= currentState <= 4 {
        r := RunDocumentStage();
      } else if 5 <= currentState <= LAST_STAGE {
        r := RunSceneStage();
      } else {
        finished := true;
        r := Ok(currentIndex);
      }
    }

    /** States 0 to 4: the container, the JSON document, the buffer
        views, the accessor records and the images. */
    method RunDocumentStage() returns (r: Run<int>)
      requires 0 <= currentState <= 4
      modifies this`glbJsonRaw, this`glbDataStart, this`glbJson, this`bufferViews, this`accessors, this`images, this`asked
      ensures r.Ok? ==> r.value == ERROR || r.value == COMPLETE || currentIndex < r.value
    {
      if currentState == 0 {
        r := ParseMainData(currentIndex);
      } else if currentState == 1 {
        var code := ParseJsonData(currentIndex);
        r := Ok(code);
      } else if currentState == 2 {
        r := ParseBufferViews(currentIndex);
      } else if currentState == 3 {
        r := ParseAccessors(currentIndex);
      } else {
        r := ParseImages(currentIndex);
      }
    }

    /** States 5 to 8: the materials, the meshes, and the nodes spawned
        then set up. */
    method RunSceneStage() returns (r: Run<int>)
      requires 5 <= currentState <= LAST_STAGE
      modifies this`materials, this`meshesInfo, this`accessors, this`nodes, this`asked
      ensures r.Ok? ==> r.value == ERROR || r.value == COMPLETE || currentIndex < r.value
    {
      if currentState == 5 {
        r := ParseMaterials(currentIndex);
      } else if currentState == 6 {
        r := ParseMeshes(currentIndex);
      } else if currentState == 7 {
        r := SpawnNodes(currentIndex);
      } else {
        r := SetupNodes(currentIndex);
      }
    }

    /** `ParseGLB`, one tick of `Update`: a question to the clock (whose
        answer only resets the time budget), the stage of the current
        state, then the transition.  A stage that throws halts the
        component.  A tick that leaves the component running has moved
        the (state, cursor) pair strictly forward. */
    method ParseGLB() returns (ghost threw: bool, ghost code: int)
      modifies this`glbJsonRaw, this`glbDataStart, this`glbJson, this`bufferViews, this`accessors, this`images,
               this`materials, this`meshesInfo, this`nodes, this`asked, this`finished,
               this`currentState, this`currentIndex, this`enabled, this`notifications, this`crashed
      ensures crashed == (old(crashed) || threw)
      ensures threw ==> !enabled && currentState == old(currentState) && currentIndex == old(currentIndex)
      ensures finished == (old(finished) || !(0 <= old(currentState) <= LAST_STAGE))
      ensures !(0 <= old(currentState) <= LAST_STAGE) ==>
        !threw && !enabled && notifications == old(notifications) + [SCENE_LOADED]
      ensures !threw ==>
        var t := Next(old(currentState), code, finished);
        && currentState == t.state && currentIndex == t.index
        && enabled == (t.enabled && old(enabled))
        && notifications == old(notifications) + Events(t.signal)
      ensures !threw && enabled ==> Before(old(currentState), old(currentIndex), currentState, currentIndex)
    {
      var _ := StillHaveTime();
      var r := RunStage();
      threw := r.Fault?;
      if r.Fault? {
        crashed := true;
        enabled := false;
        code := currentIndex;
        return;
      }
      code := r.value;
      ghost var state, index := currentState, currentIndex;
      currentIndex := r.value;
      TriggerNextIteration();
      if 0 <= state <= LAST_STAGE {
        NextProgress(state, index, code);
      }
    }
  }
}
