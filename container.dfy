/** The binary glTF container: the 12-byte header followed by the JSON
    chunk header and payload and the BIN chunk header (sections 4.3 and
    4.4 of the glTF 2.0 specification), as the loader walks it. */
module Container {
  import opened Wrappers
  import opened Bytes
  import Int32

  const MAGIC: nat := 0x46546C67       // "glTF"
  const CHUNK_JSON: nat := 0x4E4F534A  // "JSON"
  const CHUNK_BIN: nat := 0x004E4942   // "BIN\0"
  const MIN_LENGTH: nat := 32

  /** Where the JSON text and the binary payload are once the headers
      have been accepted, or the rejection (`errorValue`). */
  datatype Layout =
    | Rejected
    | Accepted(json: seq<byte>, dataStart: nat)

  /** The header walk of `ParseMainData` (and of the older loader's
      `ParseGLB`).  A cursor starts at 0 and moves past each field it
      reads; every `BitConverter` read and the text extraction throw when
      they would run past the data. */
  function ParseMainData(glb: seq<byte>): (r: Run<Layout>)
    ensures r.Ok? && r.value.Accepted? ==>
      28 + |r.value.json| <= |glb| && r.value.dataStart == 28 + |r.value.json|
  {
    if |glb| < MIN_LENGTH then Ok(Rejected)
    else
      var magic := U32At(glb, 0);
      if magic != MAGIC then Ok(Rejected)
      else
        var size := U32At(glb, 8);
        if |glb| < size then Ok(Rejected)
        else
          var chunkLength := I32At(glb, 12);
          var chunkType := U32At(glb, 16);
          if chunkLength < 0 then Ok(Rejected)
          else if chunkType != CHUNK_JSON then Ok(Rejected)
          else if 20 + chunkLength > |glb| then Fault
          else
            var jsonData := glb[20..20 + chunkLength];
            var cursor := 20 + chunkLength;
            if !InBounds(glb, cursor, 4) then Fault
            else if !InBounds(glb, cursor + 4, 4) then Fault
            else if U32At(glb, cursor + 4) != CHUNK_BIN then Ok(Rejected)
            else Ok(Accepted(jsonData, cursor + 8))
  }

  /** The checks a file must pass, in the order they are made. */
  predicate HeaderOk(glb: seq<byte>)
  {
    |glb| >= MIN_LENGTH && U32At(glb, 0) == MAGIC && U32At(glb, 8) <= |glb|
    && I32At(glb, 12) >= 0 && U32At(glb, 16) == CHUNK_JSON
  }

  /** The container is accepted exactly when the header checks pass, both
      chunk headers fit and the second chunk is the BIN chunk; the JSON is
      then bytes [20, 20 + length) and the payload starts 8 bytes after
      it.  A failed header check rejects; a file whose declared JSON chunk
      or BIN header runs past the end makes the walk throw. */
  lemma ParseMainDataSpec(glb: seq<byte>)
    ensures !HeaderOk(glb) ==> ParseMainData(glb) == Ok(Rejected)
    ensures HeaderOk(glb) ==>
      var len := I32At(glb, 12);
      && (ParseMainData(glb).Fault? <==> 28 + len > |glb|)
      && (28 + len <= |glb| ==>
            ParseMainData(glb) ==
              if U32At(glb, 24 + len) == CHUNK_BIN then Ok(Accepted(glb[20..20 + len], 28 + len))
              else Ok(Rejected))
  {
  }

  /** The writer side: the 12-byte file header and the JSON chunk header. */
  function EncodeHeader(version: nat, size: nat, jsonLength: nat): (h: seq<byte>)
    requires version < 0x1_0000_0000 && size < 0x1_0000_0000 && jsonLength < 0x8000_0000
    ensures |h| == 20
  {
    EncodeU32(MAGIC) + EncodeU32(version) + EncodeU32(size) + EncodeU32(jsonLength) + EncodeU32(CHUNK_JSON)
  }

  /** The BIN chunk header. */
  function EncodeBinHeader(binLength: nat): (h: seq<byte>)
    requires binLength < 0x1_0000_0000
    ensures |h| == 8
  {
    EncodeU32(binLength) + EncodeU32(CHUNK_BIN)
  }

  /** A two-chunk container around `json` and `bin`. */
  function EncodeGlb(version: nat, json: seq<byte>, bin: seq<byte>): (glb: seq<byte>)
    requires version < 0x1_0000_0000
    requires 28 + |json| + |bin| < 0x8000_0000
    ensures |glb| == 28 + |json| + |bin|
  {
    EncodeHeader(version, 28 + |json| + |bin|, |json|) + json + EncodeBinHeader(|bin|) + bin
  }

  /** The header fields read back. */
  lemma HeaderReads(version: nat, size: nat, jsonLength: nat)
    requires version < 0x1_0000_0000 && size < 0x1_0000_0000 && jsonLength < 0x8000_0000
    ensures var h := EncodeHeader(version, size, jsonLength);
      U32At(h, 0) == MAGIC && U32At(h, 8) == size && I32At(h, 12) == jsonLength && U32At(h, 16) == CHUNK_JSON
  {
    var e1, e2, e3, e4, e5 := EncodeU32(MAGIC), EncodeU32(version), EncodeU32(size), EncodeU32(jsonLength), EncodeU32(CHUNK_JSON);
    var h := e1 + e2 + e3 + e4 + e5;
    U32RoundTrip(MAGIC, [], e2 + e3 + e4 + e5);
    assert [] + e1 + (e2 + e3 + e4 + e5) == h;
    U32RoundTrip(size, e1 + e2, e4 + e5);
    assert e1 + e2 + e3 + (e4 + e5) == h;
    I32RoundTrip(jsonLength, e1 + e2 + e3, e5);
    assert EncodeI32(jsonLength) == e4;
    U32RoundTrip(CHUNK_JSON, e1 + e2 + e3 + e4, []);
    assert e1 + e2 + e3 + e4 + e5 + [] == h;
  }

  /** The chunk type of the BIN header reads back. */
  lemma BinHeaderReads(binLength: nat)
    requires binLength < 0x1_0000_0000
    ensures U32At(EncodeBinHeader(binLength), 4) == CHUNK_BIN
  {
    U32RoundTrip(CHUNK_BIN, EncodeU32(binLength), []);
    assert EncodeU32(binLength) + EncodeU32(CHUNK_BIN) + [] == EncodeBinHeader(binLength);
  }

  /** Appending bytes does not change what is read before them. */
  lemma ReadsKept(a: seq<byte>, b: seq<byte>, p: nat)
    requires p + 4 <= |a|
    ensures U32At(a + b, p) == U32At(a, p) && I32At(a + b, p) == I32At(a, p)
  {
  }

  /** Any well-formed two-chunk container of at least 32 bytes is accepted,
      with its own JSON chunk and a payload offset just past the BIN
      chunk header. */
  lemma {:induction false} ParseMainDataRoundTrip(version: nat, json: seq<byte>, bin: seq<byte>)
    requires version < 0x1_0000_0000
    requires 28 + |json| + |bin| < 0x8000_0000
    requires |json| + |bin| >= 4
    ensures ParseMainData(EncodeGlb(version, json, bin)) == Ok(Accepted(json, 28 + |json|))
  {
    var h := EncodeHeader(version, 28 + |json| + |bin|, |json|);
    var bh := EncodeBinHeader(|bin|);
    var rest := json + bh + bin;
    assert EncodeGlb(version, json, bin) == h + rest;
    HeaderReads(version, 28 + |json| + |bin|, |json|);
    ReadsKept(h, rest, 0);
    ReadsKept(h, rest, 8);
    ReadsKept(h, rest, 12);
    ReadsKept(h, rest, 16);
    var front := h + json;
    BinHeaderReads(|bin|);
    ReadsKept(bh, bin, 4);
    assert EncodeGlb(version, json, bin) == front + (bh + bin);
    assert (front + (bh + bin))[|front| + 4..] == bh[4..] + bin;
    assert (h + rest)[20..20 + |json|] == json;
  }
}
