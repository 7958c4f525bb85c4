# A verified model of the VRChat GLB loader core

The repository is a loader of binary glTF 2.0 files (`.glb`) for VRChat
worlds, written as UdonSharp behaviours. This project models its
deterministic core in Dafny and proves properties of that model.

- **The loader component** (`Runtime/Scripts/GLBLoader.cs`):
  - it checks the GLB container header and its JSON and BIN chunk
    headers (sections 4.3 and 4.4 of the glTF 2.0 specification);
  - it extracts buffer-view, accessor, mesh, primitive, image and node
    records from the decoded JSON document, each field with its default;
  - it resolves accessors into typed arrays read from the binary
    payload, with packed and strided little-endian readers (section
    3.6.2 of glTF 2.0, Accessors);
  - it reshapes float runs into vectors and matrices and swaps triangle
    winding in place;
  - it builds the scene across many frames: a stage machine
    (`currentState`, `currentIndex`, the codes -1 for complete and -2 for
    error) in which each stage loop yields a resume cursor when the
    frame's time budget runs out;
  - it spawns and parents the nodes, with the handedness flips of
    translation and rotation, picks each submesh's material with a
    default fallback, and maps the glTF alpha mode to render state.
- **The older one-shot loader** (`GLBLoader.cs` at the repository root):
  the same container walk, its field checks, buffer views dispatched by
  target, accessors, the index checks of mesh loading, two-pass node
  parsing and the material fallback, all in one call.
- **The DDS texture reader** (`DDSReader.cs`): the DirectDraw Surface
  header, its pixel format and DX10 extension, the FourCC-to-format
  mapping and the start of the texture payload.
- **The `VRMC_materials_mtoon` material extension**: the table of toon
  properties with defaults, ranges and enumerations, texture references
  with `KHR_texture_transform`, keywords, and the render mode with its
  render queue.
- **The `EXT_voyage_shadermotion` material extension**: a shader swap that
  keeps the render queue, and table-driven copies of float and texture
  properties plus the motion decoder texture.
- **The integer bookkeeping of ShaderMotion skin retargeting**:
  - the bone map from source bones to humanoid bones, through parents;
  - the cleanup of unused and unmapped bones;
  - the stable choice of the four heaviest destination bones per vertex;
  - the substitution of missing humanoid bones;
  - the filling of the combine-instance array.

Each file is one Dafny module:

| file | module | models |
|---|---|---|
| `wrappers.dfy` | `Wrappers` | `Option` (a C# `null`) and `Run` (an outcome the .NET runtime may abort with an exception, `Fault`) |
| `int32.dfy` | `Int32` | C# `int` wrap-around, truncating division, the `(int)(double)` cast, `Mathf.Clamp` |
| `json.dfy` | `Json` | the `DataToken` tree the host's JSON decoder yields, and its typed lookups |
| `bytes.dfy` | `Bytes` | little-endian `BitConverter` and `Buffer.BlockCopy` readers, packed and strided |
| `container.dfy` | `Container` | the GLB header and chunk-header walk |
| `document.dfy` | `Document` | `DictOpt*`, `CheckFields`, the buffer-view, accessor, primitive, mesh and node records |
| `reshape.dfy` | `Reshape` | `FloatsToVector2/3/Matrix4x4`, `InvertTriangles`, `RescaleVector3` |
| `accessors.dfy` | `Accessors` | `ParseAccessorBuffer` and the typed readers behind it |
| `schedule.dfy` | `Schedule` | stage codes, `StillHaveTime` as an oracle, stage-loop cursors, `TriggerNextIteration` |
| `scene.dfy` | `Scene` | stage specifications: the memoised accessors, meshes, images, node wiring |
| `materials.dfy` | `Materials` | materials as values, `CreateMaterialFrom` and its alpha-mode presets |
| `loader.dfy` | `Loader` | the class `GLBLoader`: its fields, stages, ticks and lifecycle |
| `legacy.dfy` | `LegacyLoader` | the class `LegacyGLBLoader`: the older loader |
| `dds.dfy` | `Dds` | `DDSReader.Parse` |
| `textures.dfy` | `Textures` | what `new Texture2D` and `LoadRawTextureData` demand of a size and a data length |
| `parents.dfy` | `Parents` | parent links as a table, and `Transform.SetParent` refusing to close a cycle |
| `mtoon.dfy` | `Mtoon` | the MToon extension handler |
| `shadermotion_material.dfy` | `ShaderMotionMaterial` | the ShaderMotion material extension handler |
| `shadermotion_skin.dfy` | `ShaderMotionSkin` | the ShaderMotion skin retargeting bookkeeping |
| `seqs.dfy` | `Seqs` | `System.Array.LastIndexOf` |

The code's quirks are modelled as written:
- `IsListComponentType` always accepts, because its accumulator starts at `true`.
- The align-to-3 truncation is keyed to the invert-triangles option index.
- `ParseImage` tests `height == 1`.
- `ParseMeshes` yields after filling a slot, so that slot is filled again on resume.
- The older `CheckFields` steps its index by four, so only every other (name, type) pair is checked.

Stateful code is modelled imperatively:
- The two loaders are classes whose methods update their fields.
- The DDS reader walks a cursor.
- The handlers update the material and loop over their tables.
- The skin code sorts, fills and rewrites arrays in place.

Each method is proved against a specification function, and that function's properties are proved as lemmas.

## Model

| member | source | states |
|---|---|---|
| Int32.DoubleToInt | Runtime/Scripts/GLBLoader.cs:96-105 | the `(int)(double)` cast always yields an `int`; it truncates toward zero whenever the truncation is representable |
| Int32.Clamp | Runtime/Scripts/Extensions/Materials/VRCMMtoonMaterialExtension.cs:384-390 | `Mathf.Clamp` on ints: the result is in [lo, hi], equals x inside the range and the nearer bound outside it |
| Json.TryGetValue | Runtime/Scripts/GLBLoader.cs:89 | `DataDictionary.TryGetValue` succeeds exactly when the key is present with a token of the requested type, and then yields that token |
| Json.AsDict | Runtime/Scripts/GLBLoader.cs:1581 | an explicit cast of a token succeeds exactly on a token of that type (otherwise the runtime throws) |
| Bytes.ReadU32 | Runtime/Scripts/GLBLoader.cs:1658 | `BitConverter.ToUInt32` succeeds exactly when four bytes are available at the offset and reads them little-endian |
| Bytes.ReadI32 | Runtime/Scripts/GLBLoader.cs:1682 | `BitConverter.ToInt32` succeeds exactly when four bytes are available at the offset and reads them as two's complement |
| Bytes.U16RoundTrip | Runtime/Scripts/GLBLoader.cs:348 | a 16-bit value written little-endian anywhere in a buffer reads back unchanged |
| Bytes.U32RoundTrip | Runtime/Scripts/GLBLoader.cs:1658 | a 32-bit value written little-endian reads back unchanged |
| Bytes.I32RoundTrip | Runtime/Scripts/GLBLoader.cs:1682 | any `int` written as its two's-complement pattern reads back unchanged through `ToInt32` |
| Bytes.GetUshorts | Runtime/Scripts/GLBLoader.cs:293-299 | `BlockCopy` into `nBytes / 2` u16 succeeds exactly when the range is inside the data and nBytes is even; element k is the u16 at `offset + 2k` |
| Bytes.GetUints | Runtime/Scripts/GLBLoader.cs:301-307 | the same for `nBytes / 4` signed 32-bit values at `offset + 4k` (nBytes a multiple of 4) |
| Bytes.GetFloats | Runtime/Scripts/GLBLoader.cs:309-315 | the same for `nBytes / 4` floats, kept as their bit patterns |
| Bytes.FloatsTriple | Runtime/Scripts/GLBLoader.cs:403-419 | the three floats of group v of a packed copy are the three words at `offset + 12v` |
| Bytes.EncodeU16sAt | Runtime/Scripts/GLBLoader.cs:293-299 | value k of a packed run of u16 reads back at `2k` after the run's start |
| Bytes.GetUshortsRoundTrip | Runtime/Scripts/GLBLoader.cs:293-299 | reading back a packed run of u16 values, wherever it sits in the data, returns exactly those values |
| Bytes.StridedFloatsArePacked | Runtime/Scripts/GLBLoader.cs:309-329 | with a stride of 4 the strided float reader returns what the packed reader returns, failures included |
| Bytes.StridedUshortsArePacked | Runtime/Scripts/GLBLoader.cs:293-299 | with a stride of 2 the strided u16 reader agrees with the packed one, failures included |
| Bytes.GetStridedFloats | Runtime/Scripts/GLBLoader.cs:317-329 | the loop advances its cursor by the unchecked 32-bit `cursor += strideInBytes`; on an array of C# length it reads `readSize / 4` floats, element k at the exact `offset + k * stride`, and throws when any read runs outside the data |
| Bytes.WrappedStep | Runtime/Scripts/GLBLoader.cs:323 | after an in-range read, the wrapped cursor sum either equals the exact next cursor or is negative, and then the exact cursor lies past the end too: the next read lands at the same place or fails either way |
| Bytes.GetStridedInts | Runtime/Scripts/GLBLoader.cs:331-340 | the same for signed 32-bit values |
| Bytes.GetStridedUshorts | Runtime/Scripts/GLBLoader.cs:342-351 | the same for `readSize / 2` u16 values |
| Container.ParseMainData | Runtime/Scripts/GLBLoader.cs:1643-1720 | an accepted container's JSON chunk lies inside the data and the binary payload starts 8 bytes past its end |
| Container.ParseMainDataSpec | Runtime/Scripts/GLBLoader.cs:1650-1720 | a failed size, magic, declared-size, chunk-length or chunk-type check rejects; with the checks passed, the walk throws exactly when the JSON chunk or the BIN header runs past the end, and otherwise accepts exactly when the second chunk is BIN |
| Container.HeaderReads | Runtime/Scripts/GLBLoader.cs:1658-1684 | the magic, version, size, JSON length and chunk type written by the encoder read back unchanged |
| Container.BinHeaderReads | Runtime/Scripts/GLBLoader.cs:1706-1708 | the BIN chunk type written by the encoder reads back |
| Container.ParseMainDataRoundTrip | Runtime/Scripts/GLBLoader.cs:1643-1720 | every well-formed two-chunk container of at least 32 bytes is accepted with its own JSON chunk and the payload just past the BIN header |
| Seqs.LastIndexOf | Runtime/Scripts/Extensions/Animation/VoyageShaderMotionExtension.cs:69 | `Array.LastIndexOf`: -1 exactly when the value is absent; otherwise a position holding it with no later occurrence |
| Document.DictOptString | Runtime/Scripts/GLBLoader.cs:86-94 | the stored string when the key holds a string, the default otherwise |
| Document.DictOptInt | Runtime/Scripts/GLBLoader.cs:96-105 | the stored number cast to `int` when the key holds a number, the default otherwise |
| Document.DictOptFloat | Runtime/Scripts/GLBLoader.cs:107-116 | the stored number when the key holds a number, the default otherwise |
| Document.IsListComponentType | Runtime/Scripts/GLBLoader.cs:493-502 | as written (accumulator starting at `true`, combined with `|=`) the check accepts every list |
| Document.ElementAsDouble | Runtime/Scripts/GLBLoader.cs:504-512 | the cast `(double)list[i]` succeeds exactly on a number |
| Document.DataListToVector3 | Runtime/Scripts/GLBLoader.cs:509-512 | succeeds exactly when the first three elements are numbers, giving them as x, y, z |
| Document.DataListToQuaternion | Runtime/Scripts/GLBLoader.cs:504-507 | succeeds exactly when the first four elements are numbers, giving them as x, y, z, w |
| Document.DataListToMatrix4x4 | Runtime/Scripts/GLBLoader.cs:524-532 | succeeds exactly when the first sixteen elements are numbers; entry i is element i |
| Document.DictOptVectorsSpec | Runtime/Scripts/GLBLoader.cs:118-160 | the default unless the key holds a list of at least the arity; such a list is converted when its leading elements are numbers and throws otherwise |
| Document.DictOptVector3RejectsNothing | Runtime/Scripts/GLBLoader.cs:121-126 | because the element check never rejects, a list of three strings gets past it and its conversion throws |
| Document.CheckFields | Runtime/Scripts/GLBLoader.cs:277-291 | true exactly when every listed key is present with the listed token type |
| Document.GetBufferViewInfo | Runtime/Scripts/GLBLoader.cs:1032-1041 | offset, length and stride are the optional integer fields, each defaulting to 0 |
| Document.ParseAccessor | Runtime/Scripts/GLBLoader.cs:580-593 | bufferView defaults to -1, offset, count and component type to 0, the type to `_UNKNOWN_`; a present number is taken through the truncating `(int)` cast, and a present string as stored |
| Document.GetSubmeshInfo | Runtime/Scripts/GLBLoader.cs:599-640 | a primitive yields a submesh exactly when it has an "attributes" dictionary with a numeric POSITION and a numeric "indices"; normals, UVs and material default to -1 |
| Document.MeshInfoOf | Runtime/Scripts/GLBLoader.cs:642-698 | a mesh is described exactly when its "primitives" entry is a list |
| Document.UsableStep | Runtime/Scripts/GLBLoader.cs:664-693 | one more primitive adds its submesh to the usable list when it has one and nothing otherwise |
| Document.ViewsStep | Runtime/Scripts/GLBLoader.cs:684-691 | one more submesh appends its four accessor indices |
| Document.GetMeshInfo | Runtime/Scripts/GLBLoader.cs:642-698 | fails exactly when there is no "primitives" list (reporting the name and nothing else); otherwise the usable primitives' accessor quadruples are packed at the front of a zeroed array, their count is reported, and every primitive has its material slot by position |
| Document.PackPrimitive | Runtime/Scripts/GLBLoader.cs:666-692 | a primitive that yields a submesh writes its quadruple at the cursor and its material at its own position and moves the cursor by 4; any other primitive changes nothing |
| Document.PackPrimitives | Runtime/Scripts/GLBLoader.cs:660-694 | the loop packs the quadruples of exactly the usable primitives, in order, leaves zeros after them and stores every primitive's material slot |
| Document.PackNext | Runtime/Scripts/GLBLoader.cs:664-693 | one pass of that loop keeps the packing invariant |
| Document.PackFinish | Runtime/Scripts/GLBLoader.cs:694 | at the end of the loop the cursor is four times the number of usable primitives and the arrays are the specified ones |
| Document.ViewsAt | Runtime/Scripts/GLBLoader.cs:921-930 | submesh s finds its four accessor indices at [4s, 4s+4) |
| Document.MaterialSlotsNotPacked | Runtime/Scripts/GLBLoader.cs:684-692 | when an earlier primitive is skipped, submesh 0 is paired with that skipped primitive's slot (0), not with its own material (5) |
| Document.ParseNode | Runtime/Scripts/GLBLoader.cs:1127-1169 | mesh index (default -1), name (default ""), the transform from "matrix" when that key exists and from translation/rotation/scale otherwise, and one child index per listed child (-1 for a non-number) |
| Document.NodeDefaults | Runtime/Scripts/GLBLoader.cs:1127-1169 | a node without transform keys sits at the origin, unrotated, at unit scale, and every non-number child reads as -1 |
| Reshape.FloatStride | Runtime/Scripts/GLBLoader.cs:405-409 | the float stride is never below the arity and is the arity whenever the byte stride is at most one packed group |
| Reshape.GroupsFitLast | Runtime/Scripts/GLBLoader.cs:411-417 | the groups a reshape loop reads all fit exactly when its last group fits |
| Reshape.GroupsFitStep | Runtime/Scripts/GLBLoader.cs:411 | one more group that fits extends the run, and the next group starts one float stride further on |
| Reshape.GroupsFitFails | Runtime/Scripts/GLBLoader.cs:413-415 | a group that runs past the floats makes every longer run fail |
| Reshape.FloatsToVector3 | Runtime/Scripts/GLBLoader.cs:403-419 | the loop returns `nFloats / 3` vectors, vector v read at float v·stride; it throws on a negative count or a read past the floats |
| Reshape.FloatsToVector2 | Runtime/Scripts/GLBLoader.cs:435-450 | the same with pairs of floats and `nFloats / 2` vectors |
| Reshape.FloatsToMatrix4x4 | Runtime/Scripts/GLBLoader.cs:353-401 | the same with sixteen-float matrices and `nFloats / 16` of them |
| Reshape.Vector3sFault | Runtime/Scripts/GLBLoader.cs:403-419 | the vector reshape throws exactly on a count of -3 floats or fewer, or when its last vector runs past the floats |
| Reshape.Vector2sFault | Runtime/Scripts/GLBLoader.cs:435-450 | the pair reshape throws exactly on a count of -2 or fewer, or when its last pair runs past the floats |
| Reshape.MatricesFault | Runtime/Scripts/GLBLoader.cs:353-401 | the matrix reshape throws exactly on a count of -16 or fewer, or when its last matrix runs past the floats |
| Reshape.Vector3sShape | Runtime/Scripts/GLBLoader.cs:410-417 | a successful reshape has `nFloats / 3` vectors (C# division), vector v holding floats v·fs, v·fs+1 and v·fs+2 |
| Reshape.Vector2sShape | Runtime/Scripts/GLBLoader.cs:442-448 | a successful pair reshape has `nFloats / 2` vectors, vector v holding floats v·fs and v·fs+1 |
| Reshape.Vector3sRoundTrip | Runtime/Scripts/GLBLoader.cs:403-419 | packed vectors written out as floats and reshaped come back unchanged |
| Reshape.Vector2sRoundTrip | Runtime/Scripts/GLBLoader.cs:435-450 | packed pairs written out as floats and reshaped come back unchanged |
| Reshape.Vector3sFlatten | Runtime/Scripts/GLBLoader.cs:403-419 | packed floats reshaped and flattened again give back every float of a complete vector |
| Reshape.Vector2sFlatten | Runtime/Scripts/GLBLoader.cs:435-450 | packed floats reshaped into pairs and flattened again give back every float of a complete pair |
| Reshape.MatricesPacked | Runtime/Scripts/GLBLoader.cs:353-401 | packed matrices: there are `nFloats / 16`, and matrix m is floats [16m, 16m+16) |
| Reshape.InvertTriangles | Runtime/Scripts/GLBLoader.cs:457-491 | the in-place loop leaves the array holding the winding-swapped order of what it held |
| Reshape.InvertedIsSwapWinding | Runtime/Scripts/GLBLoader.cs:457-473 | the pointwise swap equals the triangle-by-triangle reference swap |
| Reshape.SwapWindingInvolutive | Runtime/Scripts/GLBLoader.cs:457-473 | swapping twice restores the original order |
| Reshape.SwapWindingPermutes | Runtime/Scripts/GLBLoader.cs:457-473 | the swap only reorders: its result is a permutation of its input |
| Reshape.InvertedEntries | Runtime/Scripts/GLBLoader.cs:462-471 | each complete triangle (a, b, c) becomes (a, c, b) and a trailing partial triangle stays as it was |
| Reshape.InvertTrianglesProperties | Runtime/Scripts/GLBLoader.cs:457-491 | inverting undoes itself and is a permutation |
| Reshape.RescaleVector3 | Runtime/Scripts/GLBLoader.cs:421-433 | the in-place loop leaves every vector multiplied component-wise by the scale |
| Reshape.NegateInvolutive | Runtime/Scripts/GLBLoader.cs:426 | multiplying a float by -1 twice gives it back, and once changes it |
| Reshape.RescaledProperties | Runtime/Scripts/GLBLoader.cs:421-433 | rescaling by ±1 factors twice restores the vectors; the identity changes nothing; the (-1, 1, 1) mirror changes exactly the x components |
| Accessors.TypeArity | Runtime/Scripts/GLBLoader.cs:232-235 | the type table knows exactly "SCALAR", "VEC2" and "VEC3", with 1 to 3 components ("MAT4" is absent) |
| Accessors.ComponentSize | Runtime/Scripts/GLBLoader.cs:237-249 | the component table knows exactly the six codes 5120-5126 except 5124, with sizes 1, 2 or 4 |
| Accessors.AccessorBuffer | Runtime/Scripts/GLBLoader.cs:769-879 | `ParseAccessorBuffer` returns null exactly when the view index is out of range or names a missing view, the type or component type is not in the table, or the component type is not float, u16 or u32 |
| Accessors.AlignOptionIgnored | Runtime/Scripts/GLBLoader.cs:803-807 | the align-on-3 option never changes the result: the alignment reads the invert-triangles option |
| Accessors.GeometrySpec | Runtime/Scripts/GLBLoader.cs:798-819 | without 32-bit overflow the start is the sum of the three offsets, the read size is the smaller of element bytes and view length, alignment keeps the largest multiple of 3 not above the count, and a zero view stride means the element size |
| Accessors.PackedScalarsReadWholeView | Runtime/Scripts/GLBLoader.cs:701-724 | a packed float SCALAR accessor copies its whole buffer view, whatever its count, and throws exactly when that copy does |
| Accessors.Vector3Read | Runtime/Scripts/GLBLoader.cs:701-724 | a successful float VEC3 read is the whole view copied as floats and grouped in threes with the accessor's stride |
| Accessors.PackedTriple | Runtime/Scripts/GLBLoader.cs:403-419 | a packed VEC3 read has one vector per whole 12-byte group, vector v holding the floats at 12v, 12v+4 and 12v+8 past the start |
| Accessors.InvertSwapsWinding | Runtime/Scripts/GLBLoader.cs:842-863 | for index data of whole triangles, the invert option returns exactly the winding-swapped indices of the straight read, and fails or is null exactly when the straight read is |
| Accessors.AlignedGeometry | Runtime/Scripts/GLBLoader.cs:803-807 | alignment leaves a whole-triangle count unchanged |
| Accessors.RawInverted | Runtime/Scripts/GLBLoader.cs:849-863 | on one geometry the invert flag swaps the winding of the u16 or u32 read and changes nothing else |
| Accessors.RescaleSpec | Runtime/Scripts/GLBLoader.cs:869-874 | rescaling multiplies every vector of a VEC3 float buffer by the scale factor and throws for any other successfully read buffer |
| Schedule.StopFrom | Runtime/Scripts/GLBLoader.cs:557-563 | the index a stage loop stops at is the end or an index at or after the one searched from |
| Schedule.Reach | Runtime/Scripts/GLBLoader.cs:557-573 | a stage loop processes a prefix of its items, and at least its first item when it has one left |
| Schedule.StopFromSpec | Runtime/Scripts/GLBLoader.cs:559-562 | the stop index is the first refusal: every question after the ignored first one was answered "yes" up to it, and a stop before the end follows a "no" |
| Schedule.StopFromIs | Runtime/Scripts/GLBLoader.cs:559-562 | conversely, an index reached with only "yes" answers and then refused (or the end) is where the loop stops |
| Schedule.StoppedAt | Runtime/Scripts/GLBLoader.cs:557-573 | a loop that stopped at i returns i (or `sectionComplete` at the end), has processed [start, i) and asked one question per visited index |
| Schedule.Completed | Runtime/Scripts/GLBLoader.cs:557-573 | a loop that leaves its `for` at the end, or is resumed past it, returns `sectionComplete` |
| Schedule.AllYesStep | Runtime/Scripts/GLBLoader.cs:1736-1740 | one more "yes" from the clock extends a run of "yes" answers |
| Schedule.ReachAtLeast | Runtime/Scripts/GLBLoader.cs:557-573 | a loop given time up to index k processes at least [start, k) |
| Schedule.LoopCodeProgress | Runtime/Scripts/GLBLoader.cs:557-575 | a stage loop never returns its own start cursor: it completes, or yields a cursor strictly past it, which is where it stopped |
| Schedule.LoopCodeExtremes | Runtime/Scripts/GLBLoader.cs:557-575 | with time for every question the loop completes; when the second question is refused it yields right after its start |
| Schedule.LateStop | Runtime/Scripts/GLBLoader.cs:1107-1121 | the mesh loop, which asks only after storing a mesh, stops at the end or at a flagged index other than its start |
| Schedule.LateEnd | Runtime/Scripts/GLBLoader.cs:1107-1124 | the mesh loop processes a prefix of the meshes |
| Schedule.LateCodeProgress | Runtime/Scripts/GLBLoader.cs:1107-1124 | the mesh loop never returns its start cursor, and a yielded cursor is an index that was both stored and processed |
| Schedule.LateBegins | Runtime/Scripts/GLBLoader.cs:1107 | the mesh loop's bookkeeping holds at its start |
| Schedule.LateSkips | Runtime/Scripts/GLBLoader.cs:1109-1113 | a mesh that is not stored is passed without a question |
| Schedule.LateGoesOn | Runtime/Scripts/GLBLoader.cs:1117-1120 | a stored mesh asks once; the loop goes on after a "yes" or at its first index |
| Schedule.LateYields | Runtime/Scripts/GLBLoader.cs:1117-1120 | a "no" after storing a mesh other than the first is where the loop yields, returning that index |
| Schedule.LateEnds | Runtime/Scripts/GLBLoader.cs:1122 | reaching the end of the meshes completes the stage |
| Schedule.LatePastEnd | Runtime/Scripts/GLBLoader.cs:1107 | a mesh loop resumed past the end completes at once and asks nothing |
| Schedule.Next | Runtime/Scripts/GLBLoader.cs:1742-1761 | a finished load signals SceneLoaded and an error code ParseError, both disabling the loader; a completed stage moves to the next state at cursor 0; a yielded cursor keeps the state |
| Schedule.NextProgress | Runtime/Scripts/GLBLoader.cs:1742-1761 | every tick that leaves the loader running moves (state, cursor) strictly forward |
| Scene.FillSpec | Runtime/Scripts/GLBLoader.cs:557-573 | after a stage loop over list indices [lo, hi) that completed, the array keeps its length, slot j holds what the j-th token wrote when visited and written and its old value otherwise, and no visited token threw |
| Scene.FillStep | Runtime/Scripts/GLBLoader.cs:566-572 | one more visit: a skipped token leaves the array alone, a written one sets its own slot, a write past the end or a throwing token throws |
| Scene.FillFaultPersists | Runtime/Scripts/GLBLoader.cs:557-573 | once a visit has thrown, visiting more indices still throws |
| Scene.ExtendsTransitive | Runtime/Scripts/GLBLoader.cs:876-877 | the "only gains parsed buffers" relation between accessor caches composes |
| Scene.CacheLookup | Runtime/Scripts/GLBLoader.cs:881-914 | `GetAccessorBuffer` is null for a negative index, an index past the records or a missing record; returns the stored buffer of a parsed record whatever the options; only ever changes the looked-up record, and then only to store the buffer it returns |
| Scene.LookupIdempotent | Runtime/Scripts/GLBLoader.cs:876-911 | a lookup that produced a buffer has stored it; a later lookup of that record, with any options, returns the same buffer and changes nothing |
| Scene.LookupFailureNotCached | Runtime/Scripts/GLBLoader.cs:769-796 | a lookup that produced no buffer leaves the cache as it was, so the record is parsed afresh next time |
| Scene.SubmeshFrom | Runtime/Scripts/GLBLoader.cs:921-998 | the four lookups of `LoadMeshFrom` only add parsed buffers to the cache |
| Scene.SubmeshFromSpec | Runtime/Scripts/GLBLoader.cs:934-993 | a submesh gets geometry exactly when its positions are a `Vector3[]` and its indices a `ushort[]` or `int[]` (otherwise it is the empty mesh); normals and UVs are kept only with their own array type; normals are recomputed exactly when there is no normals buffer |
| Scene.LoadSubmeshes | Runtime/Scripts/GLBLoader.cs:1013-1021 | loading the first k submeshes in order yields k of them and only adds parsed buffers to the cache |
| Scene.SubmeshesFaultPersists | Runtime/Scripts/GLBLoader.cs:1013-1021 | once a submesh has thrown, loading more submeshes still throws |
| Scene.SubmeshesStep | Runtime/Scripts/GLBLoader.cs:1013-1021 | submesh s+1 is loaded on the cache the first s submeshes left, and a throw there is a throw of the whole prefix |
| Scene.VertexSum | Runtime/Scripts/GLBLoader.cs:1019 | the running `int` vertex total stays in the `int` range (32-bit wrap-around) |
| Scene.VertexSumAppend | Runtime/Scripts/GLBLoader.cs:1019 | the total after one more submesh is the wrapped sum of the previous total and its vertex count |
| Scene.MeshFrom | Runtime/Scripts/GLBLoader.cs:1000-1030 | `LoadMesh` yields nothing exactly when `GetMeshInfo` fails; otherwise one submesh per usable primitive and the primitives' material slots; the cache only gains parsed buffers |
| Scene.VertexSumExact | Runtime/Scripts/GLBLoader.cs:1019-1024 | without overflow the running total is the exact total, and the mesh gets 16-bit indices exactly when it has fewer than 65535 vertices |
| Scene.FormatOf | Runtime/Scripts/GLBLoader.cs:1565-1580 | exactly "BGRA32", "DXT5" and "BC7" are accepted texture formats |
| Scene.ImageOf | Runtime/Scripts/GLBLoader.cs:1533-1601 | `ParseImage` is null without a numeric bufferView and an extensions dictionary; a texture it returns passed the header test, has the exporter's width, height and format, no mipmaps, holds exactly the bytes of its in-range buffer view, and has a size and data length Unity accepts; once every check and the copy pass, it throws exactly when Unity refuses the size or the bytes are too few for the format |
| Scene.ImageHeightTest | Runtime/Scripts/GLBLoader.cs:1558-1598 | the height test compares with 1, not -1: a height of 1 is refused (null), while a missing height passes the test and then throws at the texture's creation whenever the format is known and the view index in range |
| Scene.FlipPosition | Runtime/Scripts/GLBLoader.cs:1296 | the translation's x is negated, y and z kept |
| Scene.FlipRotation | Runtime/Scripts/GLBLoader.cs:1297 | the rotation (x, y, z, w) becomes (-x, y, z, -w); a rotation from a matrix is marked flipped |
| Scene.FlipsInvolutive | Runtime/Scripts/GLBLoader.cs:1296-1297 | both handedness flips undo themselves |
| Scene.MaterialsFor | Runtime/Scripts/GLBLoader.cs:1191-1210 | one renderer entry per material index: the loader's material for an index in range, a fresh copy of the base material otherwise |
| Scene.MaterialsForInRange | Runtime/Scripts/GLBLoader.cs:1202-1205 | every entry that names a loader material names one that exists |
| Scene.ReparentSpec | Runtime/Scripts/GLBLoader.cs:1305-1316 | the children loop changes exactly the parent of the listed children in [0, nNodes) that are neither node n nor one of its ancestors (those `SetParent` refuses), to node n, and nothing else; it throws exactly when a listed child in range names no spawned node |
| Scene.ReparentLinks | Runtime/Scripts/GLBLoader.cs:1305-1316 | on the parent links the children loop is `Parents.AdoptAll`, so it keeps the nodes a forest |
| Scene.FaultReparentPersists | Runtime/Scripts/GLBLoader.cs:1305-1315 | a child list whose prefix throws throws as a whole |
| Scene.SetupNodeSpec | Runtime/Scripts/GLBLoader.cs:1283-1316 | one node's setup gives it the document's name and scale and the flipped translation and rotation; every other node changes only its parent, to n, when it is a listed child in range that is neither n nor one of n's ancestors; the nodes stay a forest |
| Scene.SetupRangeStep | Runtime/Scripts/GLBLoader.cs:1277-1316 | one more visit of the node loop sets up token i on what the earlier visits left |
| Scene.SetupRangeKeepsLength | Runtime/Scripts/GLBLoader.cs:1275-1316 | setting nodes up never adds or removes a node |
| Scene.InstancesForest | Runtime/Scripts/GLBLoader.cs:1251 | prefab instances spawned under the loader's root form a forest |
| Scene.SetupRangeForest | Runtime/Scripts/GLBLoader.cs:1282-1317 | setting nodes up keeps them a forest under the loader's root |
| Materials.Material.constructor | Runtime/Scripts/GLBLoader.cs:1324-1333 | a new material is a copy of its template |
| Materials.Material.SetFloat | Runtime/Scripts/GLBLoader.cs:1352 | only the named float property changes, to the value given |
| Materials.Material.SetInt | Runtime/Scripts/GLBLoader.cs:1342-1344 | only the named property changes, to the integer stored as a float |
| Materials.Material.SetColor | Runtime/Scripts/GLBLoader.cs:1469 | only the named color property changes |
| Materials.Material.SetTexture | Runtime/Scripts/GLBLoader.cs:1405 | only the named texture slot changes |
| Materials.Material.SetTextureOffset | Runtime/Scripts/Extensions/Materials/VRCMMtoonMaterialExtension.cs:183 | only the named texture's offset changes |
| Materials.Material.SetTextureScale | Runtime/Scripts/Extensions/Materials/VRCMMtoonMaterialExtension.cs:184 | only the named texture's scale changes |
| Materials.Material.EnableKeyword | Runtime/Scripts/GLBLoader.cs:1340 | the keyword is added and nothing else changes |
| Materials.Material.DisableKeyword | Runtime/Scripts/GLBLoader.cs:1339 | the keyword is removed and nothing else changes |
| Materials.Material.SetOverrideTag | Runtime/Scripts/GLBLoader.cs:1338 | only the named tag changes |
| Materials.Material.SetShader | Runtime/Scripts/GLBLoader.cs:1393 | the shader changes and the render queue becomes the shader's own |
| Materials.Material.SetRenderQueue | Runtime/Scripts/GLBLoader.cs:1345 | only the render queue changes |
| Materials.Material.SetName | Runtime/Scripts/GLBLoader.cs:1398 | only the name changes |
| Materials.Material.SetEmissionGiNone | Runtime/Scripts/GLBLoader.cs:1468 | only the global-illumination flag changes, to none |
| Materials.Fade | Runtime/Scripts/GLBLoader.cs:1336-1346 | the fade preset keeps the shader and sets the transparent queue 3000 |
| Materials.Cutout | Runtime/Scripts/GLBLoader.cs:1348-1360 | the cutout preset keeps the shader and sets the alpha-test queue 2450 |
| Materials.MaterialSetAsFade | Runtime/Scripts/GLBLoader.cs:1336-1346 | the material's new state is the fade preset of its old state |
| Materials.MaterialSetAsCutout | Runtime/Scripts/GLBLoader.cs:1348-1360 | the material's new state is the cutout preset of its old state at the threshold |
| Materials.FadeSpec | Runtime/Scripts/GLBLoader.cs:1336-1346 | fade: render type Transparent, queue 3000, source-alpha / one-minus-source-alpha blending, no depth write, only the alpha-blend keyword of the three; shader, name, colors, textures and every other float untouched |
| Materials.FadeIdempotent | Runtime/Scripts/GLBLoader.cs:1336-1346 | fading twice is fading once |
| Materials.CutoutSpec | Runtime/Scripts/GLBLoader.cs:1348-1360 | cutout: render type TransparentCutout, queue 2450, the threshold as cutoff, one / zero blending, depth write, only the alpha-test keyword of the three; shader, colors and textures untouched |
| Materials.FadeFields | Runtime/Scripts/GLBLoader.cs:1336-1346 | the fade preset as a record update: tag, three keywords, three floats, queue |
| Materials.CutoutFields | Runtime/Scripts/GLBLoader.cs:1348-1360 | the cutout preset as a record update: tag, cutoff, three floats, three keywords, queue |
| Materials.ThreeUpdatesOverwrite | Runtime/Scripts/GLBLoader.cs:1342-1344 | writing the same three properties again overrides the first writes |
| Materials.FadeOverridesCutout | Runtime/Scripts/GLBLoader.cs:1444-1446 | a fade after a cutout (MASK with a translucent base color) is a fade that keeps only the cutout threshold |
| Materials.UpdateOverwrite | Runtime/Scripts/GLBLoader.cs:1352 | writing a property twice keeps the second value |
| Materials.PresetKeywords | Runtime/Scripts/GLBLoader.cs:1339-1358 | switching the alpha keywords to one preset and then another gives the second preset's keywords |
| Materials.TextureInfo | Runtime/Scripts/GLBLoader.cs:1366-1369 | a texture record is found exactly when the key holds a dictionary |
| Materials.TextureIfAvailable | Runtime/Scripts/GLBLoader.cs:1362-1381 | null without a texture record; a returned texture is one of the images, the one at the record's numeric index when that index is in range |
| Materials.ListToColor | Runtime/Scripts/GLBLoader.cs:514-522 | the color casts succeed exactly when the first four (or three) elements exist and are numbers; alpha is 1 for the RGB form |
| Materials.PbrStep | Runtime/Scripts/GLBLoader.cs:1431-1463 | the metallic-roughness block keeps the shader and moves to the transparent queue exactly when the base color factor's alpha is below 1 |
| Materials.AlbedoStep | Runtime/Scripts/GLBLoader.cs:1434-1435 | the base color texture step keeps the shader and the queue |
| Materials.BaseColorStep | Runtime/Scripts/GLBLoader.cs:1437-1449 | the base color factor keeps the shader and fades exactly when it is a four-number list with alpha below 1 |
| Materials.MetalStep | Runtime/Scripts/GLBLoader.cs:1450-1462 | the metallic, metallic-roughness texture and glossiness steps keep the shader and the queue |
| Materials.EmissionStep | Runtime/Scripts/GLBLoader.cs:1465-1478 | the emission steps keep the shader and the queue |
| Materials.HeaderStep | Runtime/Scripts/GLBLoader.cs:1385-1407 | an unlit material takes the unlit shader and its queue; any other keeps the base's |
| Materials.CreateMaterialFrom | Runtime/Scripts/GLBLoader.cs:1383-1484 | throws exactly when the translation does; otherwise a fresh material whose state is the translation of the record |
| Materials.ApplyHeader | Runtime/Scripts/GLBLoader.cs:1385-1407 | the material's new state is the header step of its old state |
| Materials.ApplyAlphaMode | Runtime/Scripts/GLBLoader.cs:1409-1429 | the material's new state is the alpha-mode step of its old state |
| Materials.ApplyPbr | Runtime/Scripts/GLBLoader.cs:1431-1463 | the material's new state is the metallic-roughness step of its old state |
| Materials.ApplyBaseColor | Runtime/Scripts/GLBLoader.cs:1437-1449 | the material's new state is the base color step of its old state |
| Materials.ApplyMetal | Runtime/Scripts/GLBLoader.cs:1450-1462 | the material's new state is the metal step of its old state |
| Materials.ApplyEmission | Runtime/Scripts/GLBLoader.cs:1465-1478 | the material's new state is the emission step of its old state |
| Materials.AlphaModeStepRenderState | Runtime/Scripts/GLBLoader.cs:1409-1429 | BLEND gives queue 3000, MASK 2450, anything else keeps the queue; an unlit material takes the transparent or cutout unlit shader to match |
| Materials.MaterialFromRenderState | Runtime/Scripts/GLBLoader.cs:1383-1484 | BLEND or a translucent base color ends in the transparent queue; MASK otherwise the alpha-test queue; any other mode the queue of the shader in use; unlit materials end with the unlit shader matching their mode |
| Materials.MaterialFromFaults | Runtime/Scripts/GLBLoader.cs:1437-1470 | translation throws exactly when a four-element base color factor or an emissive factor holds a non-number where the casts read |
| Loader.HasListCasts | Runtime/Scripts/GLBLoader.cs:541-553 | once `TryGetValue` has found a list under the key, the later `(DataList)` cast of that entry succeeds and yields that list |
| Loader.MeshAsks | Runtime/Scripts/GLBLoader.cs:1109-1122 | the mesh loop has one "stored, so ask" flag per mesh token |
| Loader.MeshStep | Runtime/Scripts/GLBLoader.cs:1111-1117 | one visit of the mesh loop keeps the slot count, extends the accessor cache, writes only slot i, and writes it exactly when the token is a dictionary `GetMeshInfo` accepts |
| Loader.MeshesFilled | Runtime/Scripts/GLBLoader.cs:1109-1124 | the mesh loop over [lo, hi) keeps the slot count and only extends the accessor cache |
| Loader.MeshStepWrote | Runtime/Scripts/GLBLoader.cs:1111-1117 | one visit keeps the description of what the mesh loop wrote, one index further |
| Loader.MeshesFilledSpec | Runtime/Scripts/GLBLoader.cs:1109-1124 | every slot the mesh loop wrote holds a loaded mesh for an accepted mesh dictionary; every other slot keeps its old entry |
| Loader.MeshesStep | Runtime/Scripts/GLBLoader.cs:1109-1117 | the mesh loop over [lo, i+1) is the loop over [lo, i) followed by one visit of mesh i |
| Loader.MeshesFaultPersists | Runtime/Scripts/GLBLoader.cs:1109-1124 | once a mesh visit throws, the whole stage throws |
| Loader.Blank | Runtime/Scripts/GLBLoader.cs:541-557 | a fresh start allocates an all-null array of the list's length; a resume keeps the array it left |
| Loader.StageYields | Runtime/Scripts/GLBLoader.cs:560-565 | a stage loop that yields at i returns i, has filled [start, i) and asked one question per visited index |
| Loader.StageCompletes | Runtime/Scripts/GLBLoader.cs:560-575 | a stage loop that leaves its `for` at the end returns `sectionComplete` with all its items visited |
| Loader.AccessorStep | Runtime/Scripts/GLBLoader.cs:564-571 | one visit of the accessor loop stores a fresh unparsed record for a dictionary and skips any other token |
| Loader.AddVertexCount | Runtime/Scripts/GLBLoader.cs:1013-1023 | the running vertex total is the 32-bit wrapping sum of the vertex counts of the submeshes loaded so far |
| Loader.MeshStageStops | Runtime/Scripts/GLBLoader.cs:1119-1122 | a mesh loop that is refused time after storing mesh m yields m with [start, m] visited |
| Loader.MeshStageEnds | Runtime/Scripts/GLBLoader.cs:1109-1124 | a mesh loop that runs to the end completes with every mesh visited |
| Loader.NodesOrEmpty | Runtime/Scripts/GLBLoader.cs:1241-1243 | the node array when it exists, no nodes when it was never created |
| Loader.GLBLoader.constructor | Runtime/Scripts/GLBLoader.cs:41-49 | a new component is enabled, in state -1 at cursor -1, with no data and nothing broadcast |
| Loader.GLBLoader.StillHaveTime | Runtime/Scripts/GLBLoader.cs:1736-1740 | each call returns the clock's next answer and counts one question |
| Loader.GLBLoader.ResetState | Runtime/Scripts/GLBLoader.cs:67-84 | state -1 at cursor -1, empty data, empty JSON dictionary and empty node array; the mesh records are kept |
| Loader.GLBLoader.Clear | Runtime/Scripts/GLBLoader.cs:189-205 | broadcasts SceneCleared once, then resets the state |
| Loader.GLBLoader.StartParsing | Runtime/Scripts/GLBLoader.cs:180-186 | moves to state 0 and keeps `Update` running |
| Loader.GLBLoader.OnStringLoadSuccess | Runtime/Scripts/GLBLoader.cs:217-223 | clears the scene, keeps the downloaded bytes and starts the container stage at cursor -1 |
| Loader.GLBLoader.ParseMainData | Runtime/Scripts/GLBLoader.cs:1643-1720 | throws exactly when the container walk throws; a rejected container is an error that changes nothing; an accepted one stores the JSON chunk and the payload start and completes |
| Loader.GLBLoader.ParseJsonData | Runtime/Scripts/GLBLoader.cs:1763-1779 | empty JSON text or a document that is not a dictionary is an error that changes nothing; otherwise the dictionary is stored and the stage completes |
| Loader.GLBLoader.ParseBufferViews | Runtime/Scripts/GLBLoader.cs:1043-1081 | no document is an error; no "bufferViews" list completes with no views; otherwise it throws exactly when a view is not a dictionary, and else stores `GetBufferViewInfo` of every view |
| Loader.GLBLoader.ParseAccessors | Runtime/Scripts/GLBLoader.cs:534-576 | no document is an error; no "accessors" list completes with no records; otherwise the records are filled from the cursor to where time ran out, and the code says where that was; a fresh start never throws |
| Loader.GLBLoader.AccessorsFrom | Runtime/Scripts/GLBLoader.cs:558-575 | the accessor loop fills the records it reached and returns its stop code; it throws only when the records are shorter than the list |
| Loader.GLBLoader.GetAccessorBuffer | Runtime/Scripts/GLBLoader.cs:881-914 | the lookup returns the cached buffer, or parses and stores it on first use, as the cache specification says |
| Loader.GLBLoader.LoadMeshFrom | Runtime/Scripts/GLBLoader.cs:921-998 | reading the four accessor indices past the info array throws; otherwise the submesh and the new cache are those of the submesh specification, and it throws exactly when that does |
| Loader.GLBLoader.LoadSubmesh | Runtime/Scripts/GLBLoader.cs:1015-1023 | one turn of the submesh loop extends the loaded submeshes by the one at offset 4s, or throws when the specification does |
| Loader.GLBLoader.LoadMesh | Runtime/Scripts/GLBLoader.cs:1000-1030 | the mesh slot and the cache are those of the mesh specification (nothing when `GetMeshInfo` fails), and it throws exactly when that does |
| Loader.GLBLoader.ParseImages | Runtime/Scripts/GLBLoader.cs:1603-1641 | no document is an error; no "images" list completes with no textures; otherwise the textures are filled from the cursor to where time ran out; the fresh-start test reads `currentIndex`, not the cursor given |
| Loader.GLBLoader.ImagesFrom | Runtime/Scripts/GLBLoader.cs:1626-1639 | the image loop fills the textures it reached with `ParseImage`'s result and returns its stop code |
| Loader.GLBLoader.VisitImage | Runtime/Scripts/GLBLoader.cs:1634-1637 | one visit of the image loop extends the filled range by one index |
| Loader.GLBLoader.ParseMaterials | Runtime/Scripts/GLBLoader.cs:1486-1531 | no document is an error; no "materials" list completes with no materials; otherwise materials are created from the cursor to where time ran out, null for a token that is not a dictionary |
| Loader.GLBLoader.MaterialsFrom | Runtime/Scripts/GLBLoader.cs:1511-1526 | the material loop fills the slots it reached and returns its stop code |
| Loader.GLBLoader.VisitMaterial | Runtime/Scripts/GLBLoader.cs:1518-1524 | one visit of the material loop extends the filled range by one index |
| Loader.GLBLoader.ParseMeshes | Runtime/Scripts/GLBLoader.cs:1083-1125 | no document is an error; no "meshes" list completes with no meshes; otherwise meshes are loaded from the cursor on and the stage yields at the last mesh it stored when refused time |
| Loader.GLBLoader.MeshesFrom | Runtime/Scripts/GLBLoader.cs:1107-1124 | the mesh loop stores what the mesh specification says and returns the late-asking stop code |
| Loader.GLBLoader.AskAfterMesh | Runtime/Scripts/GLBLoader.cs:1119-1122 | a stored mesh asks for time even at the first index, and a "no" at any other index stops the loop there and yields that index |
| Loader.GLBLoader.VisitMesh | Runtime/Scripts/GLBLoader.cs:1111-1117 | one visit of the mesh loop extends the mesh specification by one index and reports whether a mesh was stored |
| Loader.GLBLoader.SpawnNodes | Runtime/Scripts/GLBLoader.cs:1220-1255 | no document is an error; no "nodes" list completes and leaves the node array alone; otherwise a fresh prefab instance under the root goes into every index reached from the cursor on |
| Loader.GLBLoader.SpawnFrom | Runtime/Scripts/GLBLoader.cs:1244-1254 | the spawning loop fills the indices it reached and returns its stop code |
| Loader.GLBLoader.SetupMesh | Runtime/Scripts/GLBLoader.cs:1171-1218 | the node gets the mesh record's mesh and one material per index, shared when known and new otherwise; a missing record or a bad index is handled as the node setup specification says |
| Loader.GLBLoader.SetupNodes | Runtime/Scripts/GLBLoader.cs:1257-1322 | no document is an error; no node array completes; otherwise every node dictionary from the cursor on sets up its object and parents its children, as the setup specification says |
| Loader.GLBLoader.NodesFrom | Runtime/Scripts/GLBLoader.cs:1281-1320 | the setup loop transforms the nodes it reached and returns its stop code |
| Loader.GLBLoader.VisitNode | Runtime/Scripts/GLBLoader.cs:1288-1317 | one visit of the setup loop extends the setup specification by one node |
| Loader.GLBLoader.PlaceNode | Runtime/Scripts/GLBLoader.cs:1307-1317 | storing node n and then running its children loop ends in the reparenting specification applied to the table holding the new node |
| Loader.GLBLoader.ParentChildren | Runtime/Scripts/GLBLoader.cs:1307-1317 | every child index inside the node array is parented to node n unless it is n or one of n's ancestors; the loop throws exactly when the reparenting specification does |
| Loader.GLBLoader.TriggerNextIteration | Runtime/Scripts/GLBLoader.cs:1722-1761 | performs the transition `Schedule.Next` gives, broadcasts its event, and disables the component when the load stops |
| Loader.GLBLoader.RunStage | Runtime/Scripts/GLBLoader.cs:1794-1829 | a state past the last stage marks the load finished and keeps the cursor; a stage returns an error, `sectionComplete` or a cursor past the one it was given |
| Loader.GLBLoader.RunDocumentStage | Runtime/Scripts/GLBLoader.cs:1796-1811 | the container, JSON, buffer view, accessor and image stages return an error, `sectionComplete` or a cursor past the one given |
| Loader.GLBLoader.RunSceneStage | Runtime/Scripts/GLBLoader.cs:1812-1829 | the material, mesh and node stages return an error, `sectionComplete` or a cursor past the one given |
| Loader.GLBLoader.ParseGLB | Runtime/Scripts/GLBLoader.cs:1786-1834 | a tick that throws stops the behaviour with state and cursor unchanged; one that does not performs the stage's transition; a tick after the last stage announces SceneLoaded; a tick that leaves the component running moves (state, cursor) strictly forward |
| LegacyLoader.WalkHeader | GLBLoader.cs:914-985 | the root loader's header walk accepts, rejects or throws on exactly the files the newer loader's container walk does, with the same JSON chunk and payload start |
| LegacyLoader.CheckFields | GLBLoader.cs:214-228 | the result is true exactly when the first, third, fifth, … (name, type) pairs hold: the extra `i += 2` skips every other pair |
| LegacyLoader.CheckedFieldsWeaker | GLBLoader.cs:218-226 | a dictionary passing the newer loader's full field check passes this one, and the two agree on a single pair |
| LegacyLoader.RootCheckSpec | GLBLoader.cs:995-1005 | the root check passes exactly when "meshes", "bufferViews" and "nodes" are lists; "materials" and "accessors" are never looked at |
| LegacyLoader.RootCheckMissesAccessors | GLBLoader.cs:995-1009 | a root without "materials" and "accessors" passes the check and the cast of its accessor list then throws |
| LegacyLoader.HasKeys | GLBLoader.cs:203-212 | true exactly when every key is present |
| LegacyLoader.ViewOf | GLBLoader.cs:529-556 | a view that is not a dictionary throws (its null slot is still cast); target 0 gives the (offset, length) span, 34962 the floats and 34963 the 16-bit values, throwing when the copy does not fit; any other target gives null |
| LegacyLoader.ParseBufferViews | GLBLoader.cs:525-559 | succeeds exactly when every view does, with one slot per view holding that view's value, in order |
| LegacyLoader.NonDictionaryViewThrows | GLBLoader.cs:531-536 | a listed view that is a number ends the load |
| LegacyLoader.AccessorOf | GLBLoader.cs:245-267 | null unless "bufferView" is a number; null when that index is at or past the number of views; otherwise the view with the optional component type, count and type and their defaults -1, 0 and "" |
| LegacyLoader.ParseAccessor | GLBLoader.cs:245-267 | computes `AccessorOf` |
| LegacyLoader.ParseAccessors | GLBLoader.cs:230-244 | succeeds exactly when every slot does, one slot per accessor, null for a token that is not a dictionary |
| LegacyLoader.FloatsToVector3 | GLBLoader.cs:393-405 | a fresh array of `floats.Length / 3` vectors, vector v made of floats 3v, 3v+1 and 3v+2 |
| LegacyLoader.Vectors3 | GLBLoader.cs:393-405 | the vectors are the newer loader's packed (stride 0) reshaping of the same floats |
| LegacyLoader.PackedVector3s | GLBLoader.cs:393-405 | vectors made of consecutive float triples are the packed reshaping |
| LegacyLoader.FloatsToVector2 | GLBLoader.cs:407-419 | a fresh array of `floats.Length / 2` vectors, vector v made of floats 2v and 2v+1 |
| LegacyLoader.Vectors2 | GLBLoader.cs:407-419 | the vectors are the newer loader's packed (stride 0) reshaping of the same floats |
| LegacyLoader.PackedVector2s | GLBLoader.cs:407-419 | vectors made of consecutive float pairs are the packed reshaping |
| LegacyLoader.VectorsRoundTrip | GLBLoader.cs:393-419 | vectors flattened to floats and read back are unchanged |
| LegacyLoader.FirstPairOnly | GLBLoader.cs:218-226 | a two-pair check looks only at its first pair |
| LegacyLoader.SubmeshInfoOf | GLBLoader.cs:273-310 | throws exactly when a primitive passes both checks yet "indices" or an attribute is not a number; otherwise agrees with the newer loader's submesh reading |
| LegacyLoader.GetSubmeshInfo | GLBLoader.cs:273-310 | computes `SubmeshInfoOf` |
| LegacyLoader.MeshInfoOf | GLBLoader.cs:317-375 | refused unless "name" is a string; otherwise the primitive list is cast (throwing when it is not a list) and packed as the newer loader packs it |
| LegacyLoader.GetMeshInfo | GLBLoader.cs:317-375 | computes `MeshInfoOf` |
| LegacyLoader.PackChecked | GLBLoader.cs:343-370 | succeeds exactly when no primitive throws; the count is the number of usable primitives, the views their quadruples followed by zeros, and one material index per listed primitive |
| LegacyLoader.MeshInfoPacked | GLBLoader.cs:336-373 | a mesh with a name and a primitive list is packed by the newer loader's layout |
| LegacyLoader.UvsOf | GLBLoader.cs:467-483 | only a positive UV index is read; a null view's type test throws; a float view gives its pairs of floats |
| LegacyLoader.GeometryOf | GLBLoader.cs:425-489 | reading past the info array throws; otherwise the mesh holds the reshaped positions, normals, optional UVs and 16-bit indices, or is empty when the views are missing or of the wrong type |
| LegacyLoader.LoadMeshFrom | GLBLoader.cs:425-489 | computes `GeometryOf` |
| LegacyLoader.Submeshes | GLBLoader.cs:505-512 | n submeshes each equal to the geometry at offset 4s, or a throw at some s below n |
| LegacyLoader.LoadMesh | GLBLoader.cs:491-516 | computes the mesh specification: nothing when `GetMeshInfo` refuses, else one submesh per packed quadruple |
| LegacyLoader.SubmeshesNext | GLBLoader.cs:505-512 | one more submesh extends the list, or throws when its geometry throws |
| LegacyLoader.SubmeshesFaultPersists | GLBLoader.cs:505-512 | once a submesh throws, loading more submeshes still throws |
| LegacyLoader.GeometryWindow | GLBLoader.cs:425-432 | a submesh reads only the four indices at its offset |
| LegacyLoader.MeshOfSpec | GLBLoader.cs:491-516 | a loaded mesh has one submesh per usable primitive, submesh s built from that primitive's own quadruple, and one material index per listed primitive |
| LegacyLoader.QuadGeometry | GLBLoader.cs:361-367 | submesh s of a packed mesh reads the quadruple of its own primitive |
| LegacyLoader.QuadWindow | GLBLoader.cs:361-367 | the packed views hold primitive s's quadruple at offset 4s |
| LegacyLoader.WindowOfPrefix | GLBLoader.cs:361-367 | a quadruple inside a prefix of the views is the same quadruple of the full views |
| LegacyLoader.MaterialSlot | GLBLoader.cs:807-815 | throws exactly when a dictionary's four-element color list holds a non-number; otherwise a material for a dictionary and null for anything else |
| LegacyLoader.ParseMaterials | GLBLoader.cs:803-817 | succeeds exactly when every slot does, one slot per material in order |
| LegacyLoader.ParseNode | GLBLoader.cs:607-638 | the newer loader's node parsing with "matrix" ignored; the rotation is a quaternion and the scale a vector |
| LegacyLoader.SameWithoutMatrix | GLBLoader.cs:607-614 | dropping "matrix" changes none of the other node lookups |
| LegacyLoader.WithMesh | GLBLoader.cs:640-681 | an index outside [0, maxMeshIndex] leaves the node alone; a valid maxMeshIndex past the records throws; otherwise only the mesh and materials change, shared when known and new otherwise |
| LegacyLoader.SetupMeshOnePastTheEnd | GLBLoader.cs:686 | with the record count passed as maxMeshIndex, a node whose mesh index equals that count throws |
| LegacyLoader.SetupMesh | GLBLoader.cs:640-681 | computes `WithMesh` |
| LegacyLoader.EntryOf | GLBLoader.cs:699-701 | a node entry is skipped exactly when it is not a dictionary, broken exactly when its parsing throws, and otherwise the parsed node |
| LegacyLoader.Entries | GLBLoader.cs:697-701 | one entry per listed node |
| LegacyLoader.NodesAfter | GLBLoader.cs:697-726 | the second pass keeps the number of node objects |
| LegacyLoader.Spawned | GLBLoader.cs:690-695 | the first pass makes one prefab copy per listed node |
| LegacyLoader.VisitedIgnoresParent | GLBLoader.cs:703-713 | the visit of a node does not depend on which parent it already has |
| LegacyLoader.ReparentAt | GLBLoader.cs:715-725 | node n's children loop gives each listed child inside the list node n as its parent, except n itself and n's ancestors, which `SetParent` refuses; every other node is left alone, and a forest stays a forest |
| LegacyLoader.StepKeepsAfterVisits | GLBLoader.cs:697-726 | one visit keeps the slot-by-slot description of the nodes |
| LegacyLoader.NodesAfterSpec | GLBLoader.cs:683-727 | after hi visits a node's parent is what the children loops of the visited entries, with their refusals, left; a visited dictionary node carries its mesh, name and transform; an unvisited one is a plain prefab copy |
| LegacyLoader.NodesAfterFault | GLBLoader.cs:697-726 | the second pass throws exactly when some visit throws |
| LegacyLoader.ParsedNodesSpec | GLBLoader.cs:683-727 | loading the node list throws exactly when a node visit throws; otherwise every node has the parent all the children loops left, the nodes form a forest, and every dictionary node has its mesh, name and transform |
| LegacyLoader.ParsedNodesTrees | GLBLoader.cs:683-727 | for a hierarchy of strict trees (no node listed by two nodes, no cycle), every node ends up under the node that lists it, and an unlisted node under the root |
| LegacyLoader.MeshIndexPastTheEndThrows | GLBLoader.cs:686 | a node whose mesh index equals the number of meshes ends the load |
| LegacyLoader.NodesFaultPersists | GLBLoader.cs:697-726 | once a visit has thrown, the later ones are never made |
| LegacyLoader.SpawnAll | GLBLoader.cs:690-695 | computes the first pass |
| LegacyLoader.ParentChildren | GLBLoader.cs:715-725 | computes node n's reparenting, skipping each child `SetParent` refuses |
| LegacyLoader.NodesAfterNext | GLBLoader.cs:697-726 | the second pass over n+1 entries is the pass over n followed by one visit |
| LegacyLoader.VisitNode | GLBLoader.cs:699-725 | one visit extends the second pass by one entry |
| LegacyLoader.SpawnAndVisit | GLBLoader.cs:683-727 | computes the specification of both passes |
| LegacyLoader.Shifted | GLBLoader.cs:693 | the nodes of a load appended under the root: only parent indices change, by the number of nodes already there |
| LegacyLoader.ShiftedByZero | GLBLoader.cs:693 | shifting by nothing changes nothing |
| LegacyLoader.ImageOf | GLBLoader.cs:824-897 | null unless "bufferView" is a number; a throw when "extensions" is not a dictionary; null without the exporter's extension; once the header and view checks pass, a throw exactly when the view is not a span inside the file or Unity refuses the size or the span is too short for its BGRA32 pixels; otherwise the span's pixels at the extension's size |
| LegacyLoader.ParseImage | GLBLoader.cs:824-897 | computes `ImageOf`, with the texture's creation |
| LegacyLoader.ParseImages | GLBLoader.cs:899-910 | succeeds exactly when every slot does, one texture slot per image in order, null for a token that is not a dictionary |
| LegacyLoader.LegacyGLBLoader.constructor | GLBLoader.cs:20-30 | a new loader has empty arrays and no nodes under its root |
| LegacyLoader.LegacyGLBLoader.Clear | GLBLoader.cs:81-97 | empties the stage arrays and destroys every node under the root; the old mesh records are kept |
| LegacyLoader.LegacyGLBLoader.ParseAndShowMeshes | GLBLoader.cs:561-577 | completes exactly when every mesh slot does, storing one slot per listed mesh and changing no other array |
| LegacyLoader.LegacyGLBLoader.ParseNodes | GLBLoader.cs:683-727 | completes exactly when the node specification does, appending its nodes under the root after the ones there, their parent indices shifted |
| LegacyLoader.LegacyGLBLoader.LoadArrays | GLBLoader.cs:1008-1014 | on completion the views, accessors, images (when listed; otherwise unchanged) and materials hold what their stages compute from the stage before |
| LegacyLoader.LegacyGLBLoader.ParseGLB | GLBLoader.cs:912-1020 | a throwing header walk throws; a rejected file, a JSON chunk that is not an object or a root failing the check changes nothing; a complete load leaves each array as its stage computes it |
| LegacyLoader.LegacyGLBLoader.OnStringLoadSuccess | GLBLoader.cs:109-113 | clears, then loads; after a complete load the nodes under the root are exactly the file's nodes, and after a refusal the arrays are empty |
| Dds.IsDx10ExtensionAboutBc7 | Runtime/Scripts/Parsers/Textures/DDSReader.cs:26-30 | throws exactly when the four bytes of the DXGI format word are not there; otherwise true exactly when that word is 98 or 99 (the two BC7 formats) |
| Dds.Payload | Runtime/Scripts/Parsers/Textures/DDSReader.cs:139-140 | the content array is allocated and filled exactly when the data start lies inside the file, and then holds every byte after it |
| Dds.Parse | Runtime/Scripts/Parsers/Textures/DDSReader.cs:37-147 | computes the reader's outcome: a texture, null where it logs an error, or a throw where a read, the copy or the texture's creation does |
| Dds.CheckSignature | Runtime/Scripts/Parsers/Textures/DDSReader.cs:39-69 | computes the magic, header size and flag checks and leaves the cursor 12 bytes on |
| Dds.ReadFields | Runtime/Scripts/Parsers/Textures/DDSReader.cs:71-96 | computes the header reads from the height to the FourCC code |
| Dds.MakeTexture | Runtime/Scripts/Parsers/Textures/DDSReader.cs:98-146 | computes the format switch, the copy of the texture data and the creation of the texture |
| Dds.Next | Runtime/Scripts/Parsers/Textures/DDSReader.cs:51-96 | each `cursor += d` is the unchecked 32-bit sum of the start and the offset so far |
| Dds.AtNear | Runtime/Scripts/Parsers/Textures/DDSReader.cs:45-96 | near a valid start the unchecked cursor sum is exact or turns negative |
| Dds.AcceptedSignature | Runtime/Scripts/Parsers/Textures/DDSReader.cs:39-69 | a texture is made only when the magic word, the header size 124 and the required flags CAPS, HEIGHT, WIDTH and PIXELFORMAT are read at offsets 0, 4 and 8 |
| Dds.AcceptedFields | Runtime/Scripts/Parsers/Textures/DDSReader.cs:71-96 | the height, width, mipmap count and FourCC code come from offsets 12, 16, 28 and 84, all inside the file |
| Dds.AcceptedFormat | Runtime/Scripts/Parsers/Textures/DDSReader.cs:102-143 | the texture has the header's width and height, mipmaps exactly when the count is above 1, DXT1, BC5, DXT5 or BC7 exactly for FourCC DXT1, ATI2, DXT5 or DX10, and a size and content length Unity accepts |
| Dds.AcceptedContent | Runtime/Scripts/Parsers/Textures/DDSReader.cs:100-140 | a BC7 texture holds the bytes after the 20-byte extension naming a BC7 format; any other holds the bytes after the 128-byte header |
| Dds.Accepted | Runtime/Scripts/Parsers/Textures/DDSReader.cs:37-147 | a texture read from a file is the file's: header checks passed at fixed offsets, its fields read back, its content the rest of the file, and Unity can create it |
| Dds.Rejected | Runtime/Scripts/Parsers/Textures/DDSReader.cs:39-43 | a file shorter than 128 bytes, an unknown FourCC code and a DX10 extension naming another format all give null |
| Dds.ZeroWords | Runtime/Scripts/Parsers/Textures/DDSReader.cs:86-88 | n reserved words written as zero |
| Dds.HeaderWords | Runtime/Scripts/Parsers/Textures/DDSReader.cs:46-96 | the magic word and the 31 header words make 32 words |
| Dds.Words | Runtime/Scripts/Parsers/Textures/DDSReader.cs:46-96 | each word takes four little-endian bytes |
| Dds.WordsRead | Runtime/Scripts/Parsers/Textures/DDSReader.cs:46-96 | word k of an encoded header reads back at byte offset 4k |
| Dds.SignedIsUnsigned | Runtime/Scripts/Parsers/Textures/DDSReader.cs:28 | a non-negative signed read equals the unsigned read of the same bytes |
| Dds.SignatureRoundTrip | Runtime/Scripts/Parsers/Textures/DDSReader.cs:39-69 | a header written with the required flags passes the signature checks |
| Dds.FieldsRoundTrip | Runtime/Scripts/Parsers/Textures/DDSReader.cs:71-96 | the fields of a written header read back unchanged |
| Dds.Dx9Texture | Runtime/Scripts/Parsers/Textures/DDSReader.cs:119-146 | a DXT1, BC5 or DXT5 header gives a texture of that format holding the bytes after the header when Unity can create it, and throws otherwise |
| Dds.Bc7Texture | Runtime/Scripts/Parsers/Textures/DDSReader.cs:104-146 | a DX10 header whose extension names a BC7 format gives a BC7 texture holding the bytes after the extension when Unity can create it, and throws otherwise |
| Dds.Dx9RoundTrip | Runtime/Scripts/Parsers/Textures/DDSReader.cs:37-147 | a written DXT1, BC5 or DXT5 header followed by pixel data reads back as exactly that texture when Unity can create it, and throws otherwise |
| Dds.Dx10Tail | Runtime/Scripts/Parsers/Textures/DDSReader.cs:104-110 | the extension's format word reads back right after the header and the data starts 20 bytes later |
| Dds.Bc7Accepted | Runtime/Scripts/Parsers/Textures/DDSReader.cs:37-147 | a passed signature, the fields and a BC7 extension give the BC7 texture of the data behind the extension when Unity can create it, and a throw otherwise |
| Dds.Bc7RoundTrip | Runtime/Scripts/Parsers/Textures/DDSReader.cs:37-147 | a written DX10 header, a BC7 extension and pixel data read back as exactly that BC7 texture when Unity can create it, and a throw otherwise |
| Textures.Tiles | Runtime/Scripts/Parsers/Textures/DDSReader.cs:142-143 | the number of 4x4 blocks (or pixels) covering a side is the least count whose span reaches it |
| Textures.ChainHoldsLevels | Runtime/Scripts/Parsers/Textures/DDSReader.cs:142-143 | a mip chain needs at least its top level plus its second level, and exactly the computed byte counts load |
| Textures.PixelBytes | GLBLoader.cs:893-894 | a 32-bit pixel texture needs four bytes a pixel |
| Textures.LayoutExamples | Runtime/Scripts/Parsers/Textures/DDSReader.cs:142-143 | block formats round up to whole blocks: a 1 by 1 DXT5 texture needs 16 bytes and fails with 15; a 4 by 2 BGRA32 chain needs 44 bytes |
| Parents.RefusedExact | Runtime/Scripts/GLBLoader.cs:1316 | in a forest the refusal test holds exactly when the child is the new parent or one of its ancestors |
| Parents.NoLoop | Runtime/Scripts/GLBLoader.cs:1316 | in a forest no upward walk returns to where it started |
| Parents.FindLoop | Runtime/Scripts/GLBLoader.cs:1316 | when a walk of as many links as there are nodes stays inside the nodes, some node lies on a loop |
| Parents.AdoptForest | Runtime/Scripts/GLBLoader.cs:1316 | a `SetParent` that is not refused keeps a forest a forest |
| Parents.AdoptAllSpec | Runtime/Scripts/GLBLoader.cs:1307-1317 | a children loop changes exactly the listed children in range that are neither n nor its ancestors in the starting table, each to n |
| Parents.AdoptAllForest | Runtime/Scripts/GLBLoader.cs:1307-1317 | a children loop keeps a forest a forest |
| Parents.MutualListing | Runtime/Scripts/GLBLoader.cs:1307-1317 | two nodes that list each other: the first child goes under the first lister, and the second lister then stays under the root |
| Parents.SelfListing | Runtime/Scripts/GLBLoader.cs:1307-1317 | a node that lists itself stays where it is |
| Parents.NoLinksForest | Runtime/Scripts/GLBLoader.cs:1251 | nodes that all sit under the root form a forest |
| Parents.AdoptEachForest | GLBLoader.cs:697-726 | the children loops of a whole node list keep a forest a forest |
| Parents.LastLister | GLBLoader.cs:715-725 | the last of the visited lists naming the node, or none when no visited list does |
| Parents.AdoptEachTrees | GLBLoader.cs:697-726 | when no node is listed twice and the listing has no cycle, no `SetParent` is refused and every node sits under the last list naming it |
| Mtoon.ClampReal | Runtime/Scripts/Extensions/Materials/VRCMMtoonMaterialExtension.cs:159-161 | the result lies in [lo, hi] and equals the value when the value already does |
| Mtoon.ClampToFloatRangeSpec | Runtime/Scripts/Extensions/Materials/VRCMMtoonMaterialExtension.cs:113-127 | no range keeps the value; an empty range throws; one bound clamps from below; two ordered bounds clamp like `Mathf.Clamp` |
| Mtoon.ClampToIntRangeSpec | Runtime/Scripts/Extensions/Materials/VRCMMtoonMaterialExtension.cs:129-143 | the same on integers |
| Mtoon.ListColor | Runtime/Scripts/Extensions/Materials/VRCMMtoonMaterialExtension.cs:145-165 | a color exactly when the list has three leading numbers; each channel is clamped into [0, 1] and kept when already there; alpha 1 |
| Mtoon.TryConvertDataListToColor | Runtime/Scripts/Extensions/Materials/VRCMMtoonMaterialExtension.cs:145-165 | true exactly when the list converts, with that color; otherwise the zero color |
| Mtoon.DictOptVector2 | Runtime/Scripts/Extensions/Materials/VRCMMtoonMaterialExtension.cs:198-215 | a list of at least two elements is read (the element type test always passes, and the casts may throw); anything else gives the default |
| Mtoon.TextureTransformSpec | Runtime/Scripts/Extensions/Materials/VRCMMtoonMaterialExtension.cs:217-235 | without the KHR_texture_transform record the offset is (0, 0) and the scale (1, 1); with it, the listed offset and scale, each defaulting to those |
| Mtoon.GltfTextureStepSpec | Runtime/Scripts/Extensions/Materials/VRCMMtoonMaterialExtension.cs:167-185 | a record without a numeric index, or with an index outside the loader's textures, changes nothing; otherwise the indexed texture is shown under the property with its transform |
| Mtoon.SetMaterialGltfTexture | Runtime/Scripts/Extensions/Materials/VRCMMtoonMaterialExtension.cs:167-185 | the material's new state is the texture step of its old state, and it throws exactly when that does |
| Mtoon.EnumValueStepSpec | Runtime/Scripts/Extensions/Materials/VRCMMtoonMaterialExtension.cs:97-110 | for distinct acceptable values, the property becomes the index of the given value |
| Mtoon.EnumValueUnknown | Runtime/Scripts/Extensions/Materials/VRCMMtoonMaterialExtension.cs:97-110 | a missing value, a missing list or an unknown value changes nothing |
| Mtoon.SetMaterialFloatEnumValue | Runtime/Scripts/Extensions/Materials/VRCMMtoonMaterialExtension.cs:97-110 | the material's new state is the enum step of its old state |
| Mtoon.KeywordSet | Runtime/Scripts/Extensions/Materials/VRCMMtoonMaterialExtension.cs:303-308 | the set holds exactly the listed keywords |
| Mtoon.KeywordSetStep | Runtime/Scripts/Extensions/Materials/VRCMMtoonMaterialExtension.cs:304-308 | one more keyword adds exactly that keyword |
| Mtoon.WithKeywords | Runtime/Scripts/Extensions/Materials/VRCMMtoonMaterialExtension.cs:301-309 | only the keywords change, and they gain exactly the row's keywords |
| Mtoon.BoolRowSpec | Runtime/Scripts/Extensions/Materials/VRCMMtoonMaterialExtension.cs:249-257 | a bool row writes its default as 0 or 1 when it has one, and then the extension's boolean as 0 or 1 when the key holds a boolean; otherwise the default (or nothing) stays |
| Mtoon.IntRowSpec | Runtime/Scripts/Extensions/Materials/VRCMMtoonMaterialExtension.cs:258-269 | an int row writes its default when it has one; a number under the key is cast to `int`, clamped to the row's range and written, and an empty range throws |
| Mtoon.RgbRowSpec | Runtime/Scripts/Extensions/Materials/VRCMMtoonMaterialExtension.cs:282-294 | a color row writes its default color when it has one; a list under the key that converts (three leading numbers clamped to [0, 1], alpha 1) replaces it, and any other value keeps the default |
| Mtoon.FloatRowSpec | Runtime/Scripts/Extensions/Materials/VRCMMtoonMaterialExtension.cs:270-281 | a float row writes its default when the extension has no number under its key, and the range-clamped number when it has |
| Mtoon.TextureRowSpec | Runtime/Scripts/Extensions/Materials/VRCMMtoonMaterialExtension.cs:295-311 | a texture row changes nothing without a dictionary under its key; with one, it enables exactly its keywords |
| Mtoon.UpdateMinus | Runtime/Scripts/Extensions/Materials/VRCMMtoonMaterialExtension.cs:251-255 | a map with one key overwritten agrees with the original away from that key |
| Mtoon.LocalTrans | Runtime/Scripts/Extensions/Materials/VRCMMtoonMaterialExtension.cs:237-324 | two steps that each write only one property together write only that property |
| Mtoon.LocalFloat | Runtime/Scripts/Extensions/Materials/VRCMMtoonMaterialExtension.cs:67-70 | setting a float writes only that property |
| Mtoon.LocalColor | Runtime/Scripts/Extensions/Materials/VRCMMtoonMaterialExtension.cs:87-90 | setting a color writes only that property |
| Mtoon.LocalEnum | Runtime/Scripts/Extensions/Materials/VRCMMtoonMaterialExtension.cs:97-110 | the enum step writes only its property and no keyword |
| Mtoon.GltfTextureKeeps | Runtime/Scripts/Extensions/Materials/VRCMMtoonMaterialExtension.cs:167-185 | the texture step writes only its property's texture, offset and scale |
| Mtoon.BoolRowLocal | Runtime/Scripts/Extensions/Materials/VRCMMtoonMaterialExtension.cs:249-257 | a boolean row writes only its own property |
| Mtoon.IntRowLocal | Runtime/Scripts/Extensions/Materials/VRCMMtoonMaterialExtension.cs:258-269 | an integer row writes only its own property |
| Mtoon.FloatRowLocal | Runtime/Scripts/Extensions/Materials/VRCMMtoonMaterialExtension.cs:270-281 | a float row writes only its own property |
| Mtoon.RgbRowLocal | Runtime/Scripts/Extensions/Materials/VRCMMtoonMaterialExtension.cs:282-294 | a color row writes only its own property |
| Mtoon.TextureRowLocal | Runtime/Scripts/Extensions/Materials/VRCMMtoonMaterialExtension.cs:295-311 | a texture row writes only its own property and its keywords |
| Mtoon.EnumRowLocal | Runtime/Scripts/Extensions/Materials/VRCMMtoonMaterialExtension.cs:313-320 | an enum row writes only its own property |
| Mtoon.PropertyStepLocal | Runtime/Scripts/Extensions/Materials/VRCMMtoonMaterialExtension.cs:237-324 | any row writes only its own shader property (plus a texture row's keywords); the shader, queue and tags stay |
| Mtoon.TryApplyProperty | Runtime/Scripts/Extensions/Materials/VRCMMtoonMaterialExtension.cs:237-324 | the material's new state is the row step of its old state, and it throws exactly when that does |
| Mtoon.EnableKeywords | Runtime/Scripts/Extensions/Materials/VRCMMtoonMaterialExtension.cs:301-309 | the material gains exactly the listed keywords |
| Mtoon.ApplyAllFaultStays | Runtime/Scripts/Extensions/Materials/VRCMMtoonMaterialExtension.cs:406-410 | a throw on a prefix of the table is a throw of the whole table walk |
| Mtoon.ApplyAllKeepsFloat | Runtime/Scripts/Extensions/Materials/VRCMMtoonMaterialExtension.cs:406-410 | a property no row names keeps its value through the table walk, and so do the shader and the queue |
| Mtoon.LocalFloatKept | Runtime/Scripts/Extensions/Materials/VRCMMtoonMaterialExtension.cs:237-324 | a step that writes another property keeps this one's value |
| Mtoon.ApplyProperties | Runtime/Scripts/Extensions/Materials/VRCMMtoonMaterialExtension.cs:406-410 | the material's new state is the table walk of its old state, and it throws exactly when that does |
| Mtoon.AlphaMode | Runtime/Scripts/Extensions/Materials/VRCMMtoonMaterialExtension.cs:334-340 | 1 for MASK, 2 for BLEND, 0 for anything else or no string |
| Mtoon.RenderQueueSpec | Runtime/Scripts/Extensions/Materials/VRCMMtoonMaterialExtension.cs:332-397 | opaque gets queue 2000, mask 2450, blend without depth write 3000 plus the offset clamped to [-9, 0], blend with depth write 2501 plus the offset clamped to [0, 9]; shader, keywords and textures stay |
| Mtoon.ModeQueueWindows | Runtime/Scripts/Extensions/Materials/VRCMMtoonMaterialExtension.cs:354-395 | the queue of each alpha mode lies in its window |
| Mtoon.ModeFlagsFrame | Runtime/Scripts/Extensions/Materials/VRCMMtoonMaterialExtension.cs:354-395 | the mode flags change no shader, keyword or texture |
| Mtoon.RenderFlagsSpec | Runtime/Scripts/Extensions/Materials/VRCMMtoonMaterialExtension.cs:354-395 | depth write and alpha-to-mask are 1 and 0 for opaque, 1 and 1 for mask, the extension's depth write and 0 for blend |
| Mtoon.SetupRenderingMode | Runtime/Scripts/Extensions/Materials/VRCMMtoonMaterialExtension.cs:332-397 | the material's new state is the rendering mode step of its old state |
| Mtoon.ApplyRenderingMode | Runtime/Scripts/Extensions/Materials/VRCMMtoonMaterialExtension.cs:354-395 | the mode flags and the queue of the alpha mode are written |
| Mtoon.HandleInternal | Runtime/Scripts/Extensions/Materials/VRCMMtoonMaterialExtension.cs:399-445 | the material's new state is the template's shader, the property table, the finishing steps and the outline keyword; it throws exactly when the table walk does |
| Mtoon.Finish | Runtime/Scripts/Extensions/Materials/VRCMMtoonMaterialExtension.cs:412-444 | the finishing steps and the outline keyword are applied |
| Mtoon.Prepare | Runtime/Scripts/Extensions/Materials/VRCMMtoonMaterialExtension.cs:412-431 | the emissive and normal-map keywords, depth write and double-sidedness are written |
| Mtoon.SetOutlineKeyword | Runtime/Scripts/Extensions/Materials/VRCMMtoonMaterialExtension.cs:436-444 | outline mode 1 enables the world keyword, 2 the screen keyword, anything else nothing |
| ShaderMotionMaterial.Properties | Runtime/Scripts/Extensions/Materials/ShaderMotionMeshPlayerMaterialExtension.cs:11-27 | the set holds exactly the shader properties of the table's pairs |
| ShaderMotionMaterial.SwapShader | Runtime/Scripts/Extensions/Materials/ShaderMotionMeshPlayerMaterialExtension.cs:52-57 | the shader becomes the template's and the render queue is put back as it was; nothing else changes |
| ShaderMotionMaterial.PrefixPairs | Runtime/Scripts/Extensions/Materials/ShaderMotionMeshPlayerMaterialExtension.cs:59-69 | dropping the last pair keeps the keys and properties of the earlier ones |
| ShaderMotionMaterial.CopyFloatsFrame | Runtime/Scripts/Extensions/Materials/ShaderMotionMeshPlayerMaterialExtension.cs:58-69 | the float loop writes only floats, and only the table's properties |
| ShaderMotionMaterial.MinusLarger | Runtime/Scripts/Extensions/Materials/ShaderMotionMeshPlayerMaterialExtension.cs:58-85 | two maps that agree outside a set agree outside any larger one |
| ShaderMotionMaterial.MinusUpdate | Runtime/Scripts/Extensions/Materials/ShaderMotionMeshPlayerMaterialExtension.cs:84-85 | writing a key that is dropped changes nothing outside the dropped keys |
| ShaderMotionMaterial.CopyFloatsSpec | Runtime/Scripts/Extensions/Materials/ShaderMotionMeshPlayerMaterialExtension.cs:58-69 | with distinct properties, pair k's property holds the number under pair k's key, or keeps its old value when there is none |
| ShaderMotionMaterial.MinusKeeps | Runtime/Scripts/Extensions/Materials/ShaderMotionMeshPlayerMaterialExtension.cs:58-85 | maps that agree outside a set agree on every key outside it |
| ShaderMotionMaterial.CopyTexturesFrame | Runtime/Scripts/Extensions/Materials/ShaderMotionMeshPlayerMaterialExtension.cs:71-82 | the texture loop writes only textures, and only the table's properties |
| ShaderMotionMaterial.CopyTexturesSpec | Runtime/Scripts/Extensions/Materials/ShaderMotionMeshPlayerMaterialExtension.cs:71-82 | pair k's property holds the indexed texture when the extension has a dictionary under the key with a numeric index in range, and otherwise keeps its old value |
| ShaderMotionMaterial.TablesWellFormed | Runtime/Scripts/Extensions/Materials/ShaderMotionMeshPlayerMaterialExtension.cs:11-27 | both tables are made of pairs with distinct shader properties, and the texture table does not name the motion decoder |
| ShaderMotionMaterial.FloatTableDistinct | Runtime/Scripts/Extensions/Materials/ShaderMotionMeshPlayerMaterialExtension.cs:11-20 | the float table's seven properties are distinct |
| ShaderMotionMaterial.TextureTableDistinct | Runtime/Scripts/Extensions/Materials/ShaderMotionMeshPlayerMaterialExtension.cs:22-27 | the texture table's three properties are distinct and none is the motion decoder |
| ShaderMotionMaterial.ShaderMotionSpec | Runtime/Scripts/Extensions/Materials/ShaderMotionMeshPlayerMaterialExtension.cs:50-86 | the handler leaves the template's shader with the old render queue, changes only the listed floats and textures and the motion decoder, and copies the decoder when the template has one |
| ShaderMotionMaterial.ShaderMotionFloat | Runtime/Scripts/Extensions/Materials/ShaderMotionMeshPlayerMaterialExtension.cs:58-69 | each listed float property is the extension's number when there is one, otherwise what the material had |
| ShaderMotionMaterial.ShaderMotionTexture | Runtime/Scripts/Extensions/Materials/ShaderMotionMeshPlayerMaterialExtension.cs:71-82 | each listed texture property is the indexed texture when the entry applies, otherwise what the material had |
| ShaderMotionMaterial.SetMaterialGltfTexture | Runtime/Scripts/Extensions/Materials/ShaderMotionMeshPlayerMaterialExtension.cs:34-48 | a numeric index inside the loader's textures shows that texture under the property; anything else changes nothing |
| ShaderMotionMaterial.CopyFloatProperties | Runtime/Scripts/Extensions/Materials/ShaderMotionMeshPlayerMaterialExtension.cs:58-69 | the material's new state is the float loop of its old state |
| ShaderMotionMaterial.CopyTextureProperties | Runtime/Scripts/Extensions/Materials/ShaderMotionMeshPlayerMaterialExtension.cs:71-82 | the material's new state is the texture loop of its old state |
| ShaderMotionMaterial.HandleInternal | Runtime/Scripts/Extensions/Materials/ShaderMotionMeshPlayerMaterialExtension.cs:50-86 | the material's new state is the handler's specification applied to its old state |
| ShaderMotionSkin.Repeat | Runtime/Scripts/Extensions/Animation/VoyageShaderMotionExtension.cs:47-56 | a fresh array of the given length holding the value at every index |
| ShaderMotionSkin.Range | Runtime/Scripts/Extensions/Animation/VoyageShaderMotionExtension.cs:114-122 | the sequence 0, 1, ..., n-1 |
| ShaderMotionSkin.GenerateRange | Runtime/Scripts/Extensions/Animation/VoyageShaderMotionExtension.cs:114-122 | a fresh array holding 0, 1, ..., size-1 |
| ShaderMotionSkin.BeforeTotal | Runtime/Scripts/Extensions/Animation/VoyageShaderMotionExtension.cs:132-146 | the ranking order (heavier first, earlier index on equal weight) is total, asymmetric and irreflexive, which makes the bubble sort's result stable |
| ShaderMotionSkin.Best | Runtime/Scripts/Extensions/Animation/VoyageShaderMotionExtension.cs:124-157 | the best candidate is one of the candidates and ranks before every other one |
| ShaderMotionSkin.BeforeTrans | Runtime/Scripts/Extensions/Animation/VoyageShaderMotionExtension.cs:132-146 | the ranking order is transitive |
| ShaderMotionSkin.Without | Runtime/Scripts/Extensions/Animation/VoyageShaderMotionExtension.cs:124-157 | removing a candidate keeps exactly the other candidates, and shortens the list when the candidate was in it |
| ShaderMotionSkin.TopOfRanked | Runtime/Scripts/Extensions/Animation/VoyageShaderMotionExtension.cs:124-157 | picking the best candidate k times yields a list ranked in order, before every candidate left out |
| ShaderMotionSkin.TopOfLength | Runtime/Scripts/Extensions/Animation/VoyageShaderMotionExtension.cs:149-154 | from distinct candidates, picking k times yields min(k, number of candidates) of them |
| ShaderMotionSkin.TopOfStep | Runtime/Scripts/Extensions/Animation/VoyageShaderMotionExtension.cs:124-157 | a ranked pick from the remaining candidates, after the best one, is a ranked pick from all of them |
| ShaderMotionSkin.WithoutNoDup | Runtime/Scripts/Extensions/Animation/VoyageShaderMotionExtension.cs:124-157 | removing a present candidate from distinct candidates keeps them distinct and shortens the list by one |
| ShaderMotionSkin.WithoutAbsent | Runtime/Scripts/Extensions/Animation/VoyageShaderMotionExtension.cs:124-157 | removing an absent candidate changes nothing |
| ShaderMotionSkin.TopRanked | Runtime/Scripts/Extensions/Animation/VoyageShaderMotionExtension.cs:124-157 | the reference selection holds the min(4, n) best bones of 0..n-1 in ranking order, each before every bone left out |
| ShaderMotionSkin.RankedUnique | Runtime/Scripts/Extensions/Animation/VoyageShaderMotionExtension.cs:124-157 | two ranked heads of the same weights are equal, so the result of the sort is determined by the weights |
| ShaderMotionSkin.RankedStep | Runtime/Scripts/Extensions/Animation/VoyageShaderMotionExtension.cs:124-157 | where two ranked heads first differ, the first one's bone ranks before the other's |
| ShaderMotionSkin.Swap | Runtime/Scripts/Extensions/Animation/VoyageShaderMotionExtension.cs:141-143 | exchanging neighbours j and j+1 and leaving every other index alone |
| ShaderMotionSkin.SwapSame | Runtime/Scripts/Extensions/Animation/VoyageShaderMotionExtension.cs:141-143 | a swap keeps the multiset of indices and keeps them in bounds |
| ShaderMotionSkin.SwapStep | Runtime/Scripts/Extensions/Animation/VoyageShaderMotionExtension.cs:135-145 | swapping a lighter index with a heavier right neighbour moves the pass forward with its invariant kept |
| ShaderMotionSkin.KeepStep | Runtime/Scripts/Extensions/Animation/VoyageShaderMotionExtension.cs:135-145 | leaving neighbours in place when the left one is not lighter moves the pass forward with its invariant kept |
| ShaderMotionSkin.PassEnd | Runtime/Scripts/Extensions/Animation/VoyageShaderMotionExtension.cs:135-145 | after an inner pass the sorted suffix grows by one and everything before it ranks no higher than its first element |
| ShaderMotionSkin.SortedHead | Runtime/Scripts/Extensions/Animation/VoyageShaderMotionExtension.cs:133-154 | a permutation of 0..n-1 sorted by the bubble sort has a ranked head of min(4, n) elements |
| ShaderMotionSkin.SortedIndices | Runtime/Scripts/Extensions/Animation/VoyageShaderMotionExtension.cs:124-157 | the returned indices are the reference top min(4, n) bones by weight, ties broken by lower index |
| ShaderMotionSkin.TakeFirst | Runtime/Scripts/Extensions/Animation/VoyageShaderMotionExtension.cs:149-154 | a fresh array holding the first count indices |
| ShaderMotionSkin.SortedTop | Runtime/Scripts/Extensions/Animation/VoyageShaderMotionExtension.cs:133-154 | the head of the sorted permutation equals the reference selection |
| ShaderMotionSkin.BubbleSort | Runtime/Scripts/Extensions/Animation/VoyageShaderMotionExtension.cs:126-146 | the indices remain a permutation of 0..n-1 and end in stable descending weight order |
| ShaderMotionSkin.Pass | Runtime/Scripts/Extensions/Animation/VoyageShaderMotionExtension.cs:135-145 | one outer pass keeps the permutation and extends the sorted suffix by one position |
| ShaderMotionSkin.Nearest | Runtime/Scripts/Extensions/Animation/VoyageShaderMotionExtension.cs:65-70 | the mapped index is -1 or an index of the destination bones |
| ShaderMotionSkin.NearestSpec | Runtime/Scripts/Extensions/Animation/VoyageShaderMotionExtension.cs:63-71 | -1 exactly when no bone on the chain from the bone up through its parents is a destination bone; otherwise the last index of the first such chain element |
| ShaderMotionSkin.RetargetBones | Runtime/Scripts/Extensions/Animation/VoyageShaderMotionExtension.cs:58-73 | a fresh map with one entry per source bone, each the nearest mapped bone or ancestor |
| ShaderMotionSkin.ReadPair | Runtime/Scripts/Extensions/Animation/VoyageShaderMotionExtension.cs:259-262 | a bone pair reads successfully exactly when its two slots exist and hold a boxed int and a boxed float |
| ShaderMotionSkin.MarkVertexSpec | Runtime/Scripts/Extensions/Animation/VoyageShaderMotionExtension.cs:259-267 | marking one vertex faults exactly when some pair is unreadable or a nonzero weight names a bone out of range; otherwise a bone is used exactly when it was used before or a nonzero-weight pair names it |
| ShaderMotionSkin.MarkAllSpec | Runtime/Scripts/Extensions/Animation/VoyageShaderMotionExtension.cs:253-268 | marking all vertices faults exactly when some vertex has a bad pair; otherwise a bone is used exactly when some vertex gives it a nonzero weight |
| ShaderMotionSkin.FirstMapped | Runtime/Scripts/Extensions/Animation/VoyageShaderMotionExtension.cs:281-291 | the first non-negative entry of the map, or 0 when there is none |
| ShaderMotionSkin.Unmapped | Runtime/Scripts/Extensions/Animation/VoyageShaderMotionExtension.cs:270-276 | unmapping keeps the map's length; its contents are stated by CleanMapSpec |
| ShaderMotionSkin.CleanMap | Runtime/Scripts/Extensions/Animation/VoyageShaderMotionExtension.cs:250-299 | cleaning keeps the map's length; its contents are stated by CleanMapSpec |
| ShaderMotionSkin.CleanMapSpec | Runtime/Scripts/Extensions/Animation/VoyageShaderMotionExtension.cs:250-299 | in the cleaned map a bone is -1 exactly when unused; a used mapped bone keeps its entry; a used unmapped bone gets the first used mapped entry, or 0 when there is none |
| ShaderMotionSkin.FinalMap | Runtime/Scripts/Extensions/Animation/VoyageShaderMotionExtension.cs:250-299 | a successful final map has one entry per source bone |
| ShaderMotionSkin.Falses | Runtime/Scripts/Extensions/Animation/VoyageShaderMotionExtension.cs:253 | n entries, all false |
| ShaderMotionSkin.NearestAll | Runtime/Scripts/Extensions/Animation/VoyageShaderMotionExtension.cs:58-73 | one entry per source bone, each its nearest mapped bone or ancestor |
| ShaderMotionSkin.Contents | Runtime/Scripts/Extensions/Animation/VoyageShaderMotionExtension.cs:164-173 | the sequence of the current contents of the per-vertex arrays |
| ShaderMotionSkin.MarkVertexUsed | Runtime/Scripts/Extensions/Animation/VoyageShaderMotionExtension.cs:257-267 | marking succeeds exactly when the vertex's pairs are good, and then the flags are the marked flags |
| ShaderMotionSkin.MarkUsed | Runtime/Scripts/Extensions/Animation/VoyageShaderMotionExtension.cs:253-268 | the used flags fault exactly when the reference marking does and otherwise equal it |
| ShaderMotionSkin.UnmapUnused | Runtime/Scripts/Extensions/Animation/VoyageShaderMotionExtension.cs:270-276 | the map afterwards is the old map with the unused bones set to -1 |
| ShaderMotionSkin.DefaultBone | Runtime/Scripts/Extensions/Animation/VoyageShaderMotionExtension.cs:281-291 | the default bone is the first mapped entry, or 0 |
| ShaderMotionSkin.MapToDefault | Runtime/Scripts/Extensions/Animation/VoyageShaderMotionExtension.cs:293-299 | every unmapped used bone gets the default, every other entry keeps its value |
| ShaderMotionSkin.CleanBoneMap | Runtime/Scripts/Extensions/Animation/VoyageShaderMotionExtension.cs:250-299 | the map is built exactly when the reference final map is, and then equals it |
| ShaderMotionSkin.FinalMapFault | Runtime/Scripts/Extensions/Animation/VoyageShaderMotionExtension.cs:253-268 | a fault while marking used bones makes the final map a fault |
| ShaderMotionSkin.FinalMapOk | Runtime/Scripts/Extensions/Animation/VoyageShaderMotionExtension.cs:250-299 | with the used flags marked, the final map is the cleaned nearest-bone map |
| ShaderMotionSkin.MarkVertexFaultStays | Runtime/Scripts/Extensions/Animation/VoyageShaderMotionExtension.cs:259-267 | once a vertex's earlier pair faults, the whole vertex faults |
| ShaderMotionSkin.MarkAllFaultStays | Runtime/Scripts/Extensions/Animation/VoyageShaderMotionExtension.cs:255-268 | once a prefix of the vertices faults, marking all of them faults |
| ShaderMotionSkin.CleanMapSteps | Runtime/Scripts/Extensions/Animation/VoyageShaderMotionExtension.cs:270-299 | the three in-place passes (unmap, find default, map to default) together yield the cleaned map |
| ShaderMotionSkin.Zeros | Runtime/Scripts/Extensions/Animation/VoyageShaderMotionExtension.cs:170 | n weights, all zero |
| ShaderMotionSkin.Accumulate | Runtime/Scripts/Extensions/Animation/VoyageShaderMotionExtension.cs:174-200 | a successful accumulation has one weight per destination bone |
| ShaderMotionSkin.AccumulateSpec | Runtime/Scripts/Extensions/Animation/VoyageShaderMotionExtension.cs:174-200 | accumulating faults exactly when some pair is unreadable, names a bone out of range, or has a nonzero weight on a missing source bone or a bad or missing target; otherwise each destination weight is the sum of the nonzero weights mapped to it, and every pair read |
| ShaderMotionSkin.Cleared | Runtime/Scripts/Extensions/Animation/VoyageShaderMotionExtension.cs:102-112 | clearing keeps the slot count; RefilledSlots states the slots |
| ShaderMotionSkin.Refilled | Runtime/Scripts/Extensions/Animation/VoyageShaderMotionExtension.cs:226-235 | refilling keeps the slot count; RefilledSlots states the slots |
| ShaderMotionSkin.Totals | Runtime/Scripts/Extensions/Animation/VoyageShaderMotionExtension.cs:170-200 | one total weight per destination bone |
| ShaderMotionSkin.RewriteVertexSpec | Runtime/Scripts/Extensions/Animation/VoyageShaderMotionExtension.cs:168-238 | rewriting a vertex faults exactly when some pair is bad; otherwise its first pairs hold the ranked top destination bones with their total weights, the rest of the first eight slots are zero and later slots are kept |
| ShaderMotionSkin.ClearBoneInfo | Runtime/Scripts/Extensions/Animation/VoyageShaderMotionExtension.cs:102-112 | the vertex's slots afterwards are the cleared slots |
| ShaderMotionSkin.AccumulateWeights | Runtime/Scripts/Extensions/Animation/VoyageShaderMotionExtension.cs:170-200 | a fresh weight array; success exactly when the reference accumulation succeeds, and then equal to it |
| ShaderMotionSkin.AccumulateNext | Runtime/Scripts/Extensions/Animation/VoyageShaderMotionExtension.cs:174-200 | one more pair either faults, leaves the weights alone when its weight is zero, or adds its weight to its mapped destination bone |
| ShaderMotionSkin.AccumulateFaultStays | Runtime/Scripts/Extensions/Animation/VoyageShaderMotionExtension.cs:174-200 | a fault on an earlier pair makes the whole accumulation fault |
| ShaderMotionSkin.RetargetVertex | Runtime/Scripts/Extensions/Animation/VoyageShaderMotionExtension.cs:168-238 | the vertex is rewritten exactly when the reference rewrite succeeds, and is otherwise left as it was |
| ShaderMotionSkin.RefillStep | Runtime/Scripts/Extensions/Animation/VoyageShaderMotionExtension.cs:230-235 | writing pair i's bone and weight extends the refill by one pair |
| ShaderMotionSkin.AfterRewrite | Runtime/Scripts/Extensions/Animation/VoyageShaderMotionExtension.cs:168-241 | the vertex contents after the rewrite: one entry per vertex |
| ShaderMotionSkin.Progress | Runtime/Scripts/Extensions/Animation/VoyageShaderMotionExtension.cs:168-238 | the vertex contents after v rewrites: one entry per vertex |
| ShaderMotionSkin.RetargetBoneWeights | Runtime/Scripts/Extensions/Animation/VoyageShaderMotionExtension.cs:159-241 | success exactly when every vertex rewrites; the vertex contents afterwards are the reference rewrite of the old contents, up to the first failing vertex |
| ShaderMotionSkin.ProgressStep | Runtime/Scripts/Extensions/Animation/VoyageShaderMotionExtension.cs:168-238 | rewriting vertex v extends the progress by one vertex |
| ShaderMotionSkin.RewriteStops | Runtime/Scripts/Extensions/Animation/VoyageShaderMotionExtension.cs:168-238 | when the loop stops at v, the contents are the reference rewrite, and every vertex succeeded exactly when v is the last one |
| ShaderMotionSkin.RetargetBindposesBoneWeights | Runtime/Scripts/Extensions/Animation/VoyageShaderMotionExtension.cs:243-301 | a fault building the map leaves every vertex untouched; otherwise success exactly when every vertex rewrites, and the vertices end as the reference rewrite under the final map |
| ShaderMotionSkin.Added | Runtime/Scripts/Extensions/Animation/VoyageShaderMotionExtension.cs:409-428 | the submeshes added are min(submesh count, free instances), or none when the index is past the end |
| ShaderMotionSkin.Filled | Runtime/Scripts/Extensions/Animation/VoyageShaderMotionExtension.cs:409-428 | filling faults exactly when the start index is negative and there is a submesh; a fill keeps the instance count |
| ShaderMotionSkin.AddSubmeshesAsInstances | Runtime/Scripts/Extensions/Animation/VoyageShaderMotionExtension.cs:409-428 | the instances and the returned index are the reference fill, and a fault changes nothing |
| ShaderMotionSkin.SumSubmeshes | Runtime/Scripts/Extensions/Animation/VoyageShaderMotionExtension.cs:32-45 | the sum of the meshes' submesh counts |
| ShaderMotionSkin.FillAllSpec | Runtime/Scripts/Extensions/Animation/VoyageShaderMotionExtension.cs:449-536 | with room for all submeshes, filling mesh after mesh ends at the total and lays every mesh's submeshes in order, keeping the slots past the total |
| ShaderMotionSkin.LaidStep | Runtime/Scripts/Extensions/Animation/VoyageShaderMotionExtension.cs:533-536 | filling the last mesh after the others completes the lay-out |
| ShaderMotionSkin.EarlierMeshKept | Runtime/Scripts/Extensions/Animation/VoyageShaderMotionExtension.cs:533-536 | an earlier mesh's position and submeshes are unchanged by adding a later mesh |
| ShaderMotionSkin.TotalPrefix | Runtime/Scripts/Extensions/Animation/VoyageShaderMotionExtension.cs:32-45 | the submeshes before mesh m plus its own fit within the total |
| ShaderMotionSkin.FixPairs | Runtime/Scripts/Extensions/Animation/VoyageShaderMotionExtension.cs:567-586 | fixing keeps the bone count |
| ShaderMotionSkin.FixUnavailableBones | Runtime/Scripts/Extensions/Animation/VoyageShaderMotionExtension.cs:567-586 | the bones afterwards, and the success flag, are the reference fix of the old bones |
| ShaderMotionSkin.FixFaultStays | Runtime/Scripts/Extensions/Animation/VoyageShaderMotionExtension.cs:567-586 | after an out-of-range pair the fix stops and nothing further changes |
| ShaderMotionSkin.FixSpec | Runtime/Scripts/Extensions/Animation/VoyageShaderMotionExtension.cs:25-30 | the fix succeeds exactly when the upper chest exists; chest, upper chest and neck take their parent's bone when missing, in that order; every other bone is unchanged; a failed fix changes at most the chest |
| ShaderMotionSkin.FixFirst | Runtime/Scripts/Extensions/Animation/VoyageShaderMotionExtension.cs:570-585 | the first pair fills a missing chest from the spine |
| ShaderMotionSkin.FixSecond | Runtime/Scripts/Extensions/Animation/VoyageShaderMotionExtension.cs:570-585 | the second pair fills a missing upper chest from the (already fixed) chest |
| ShaderMotionSkin.FixThird | Runtime/Scripts/Extensions/Animation/VoyageShaderMotionExtension.cs:570-585 | the third pair fills a missing neck from the head |
| ShaderMotionSkin.GoodUpToAt | Runtime/Scripts/Extensions/Animation/VoyageShaderMotionExtension.cs:168-238 | when the loop stops at v, vertex u's prefix is good exactly when u is before v |
| ShaderMotionSkin.MarkAllNext | Runtime/Scripts/Extensions/Animation/VoyageShaderMotionExtension.cs:255-268 | marking one more vertex is marking that vertex on the flags so far |
| ShaderMotionSkin.RefilledSlots | Runtime/Scripts/Extensions/Animation/VoyageShaderMotionExtension.cs:226-235 | the refilled slots hold the best bones with their weights, zeros after them up to the eighth slot, and the old slots beyond |

## Left out

- Downloading, URL input, ownership sync and the download callbacks' networking are left out: the model starts from the downloaded bytes. `OnStringLoadSuccess` keeps only its hand-over of the bytes to the parser.
- Logging (`ReportInfo`, `ReportError`, `Debug.Log`) is left out; it writes nowhere the model can observe.
- The host's JSON decoder (`VRCJson.TryDeserializeFromJson`) is a foreign call. Both loaders take it as a function parameter `decode` from the JSON chunk's bytes to a `Json.Token` tree. A result that is not a dictionary counts as a failed decode.
- The clock (`Time.realtimeSinceStartup`, `fixedDeltaTime`) is replaced by an oracle: call k of `StillHaveTime` answers `clock(k)`. Frame timing itself is not modelled.
- Unity engine objects are values or abstract identities and are never rendered:
  - meshes, textures, materials, game objects and transforms;
  - `Instantiate`, `CombineMeshes`, `RecalculateNormals`/`RecalculateBounds`, `SetOverrideTag`;
  - `Texture2D` creation keeps only the rule of `Textures.Loads`: a positive size, and raw data covering the format's pixels or 4x4 blocks (the whole mip chain when there is one). Longer data is accepted. The largest size Unity accepts and the graphics device's support for a format are not modelled.
- Floating point is not modelled:
  - JSON numbers are exact reals, and their narrowing from double to single precision is not represented;
  - binary floats are opaque 32-bit patterns, so `BitConverter.ToSingle` is not decoded and the model only copies them or flips their sign bit.
- Matrix arithmetic is left out:
  - the decomposition of a node's "matrix" into position, rotation and scale;
  - the bind pose and vertex matrices of `RetargetBindposes`, `RetargetBoneWeights` and `PremultiplyVertices/Normals/Tangents`;
  - `ClampBoneWeight`/`ClampedBoneWeights`, `MultiplyMatrices`, `CloneMesh`;
  - `CreatePlayer`, beyond its submesh count (`SumSubmeshes`) and instance lay-out (`FillAllSpec`).
- ShaderMotionSkin.SumSubmeshes: sums into an unbounded number over a typed sequence of meshes; the source adds into an unchecked 32-bit `int` (a wrap no real mesh list reaches) and casts each slot with `(object[])` and `(Mesh)`, which could throw on a malformed slot.
- `GetAnimatorBones`, `GetActualParentsIndices` and `PrepareBones` are left out: they query the `Animator` and `HumanTrait`, which are engine calls.
- The loaders' node parents are a table (`Parents.Table`), and `SetParent` leaves a child in place when it is the new parent or one of its ancestors (`Parents.Refused`). The spawned nodes therefore stay a forest (`Scene.SetupRangeForest`, `LegacyLoader.ParsedNodesSpec`). The skin code's transform parents are a function with a depth measure (`ShaderMotionSkin.Hierarchy`), and `RetargetBones` requires that acyclic hierarchy, as any hierarchy built by `SetParent` is.
- `Scene.AccessorParser` makes the accessor parser a parameter of the loader, set to `Accessors.AccessorBuffer` by the constructor. This keeps the mesh-stage proofs small; the parser's own contract is proved in `Accessors`.
- When a stage hits a runtime exception (`Fault`), the model reports the fault. It does not state which array entries the aborted stage had already written.
- A `null` byte array handed to the parsers is not modelled; the model's byte sequences always exist.
- The contents of the older loader's materials are not modelled; only their slot count and the per-submesh fallback are.
- Mtoon: the property table holds boxed numeric literals for float defaults and ranges. Some are ints (the defaults 0 and 1, the ranges {-9, 9}, {0, 1} and {0}) and some are doubles (the defaults 0.0, 0.9, 1.0 and 5.0). Under .NET unboxing rules `(float)` throws on a boxed `int` and on a boxed `double` alike, so every float row with a default or a range would throw there. The model reads every such literal, int or double, as its number.
- The UI, hierarchy-toggle and asset-info components, `MaterialExtensionHandler` (a one-line dispatch) and the unlit extension (a single shader-name comparison) are outside the modelled core.
