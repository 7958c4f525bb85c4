/** The DDS texture reader: it checks a DirectDraw Surface header found at
    some offset of a byte array, picks the block-compressed texture format
    from the pixel format's FourCC code (or from the DX10 extension header)
    and hands everything after the headers to the texture as raw data. */
module Dds {
  import opened Wrappers
  import opened Bytes
  import Int32
  import Textures

  const DDS_FILE_MAGIC: int := 0x20534444
  const DDS_FILE_MAGIC_SIZE: int := 4
  const DDS_HEADER_SIZE: int := 124
  const DDS_HEADER_WITH_DXT10_SIZE: int := 144
  const DDSD_CAPS: bv32 := 0x1
  const DDSD_HEIGHT: bv32 := 0x2
  const DDSD_WIDTH: bv32 := 0x4
  const DDSD_PIXELFORMAT: bv32 := 0x1000
  const REQUIRED_DDSD_FLAGS: bv32 := DDSD_CAPS | DDSD_HEIGHT | DDSD_WIDTH | DDSD_PIXELFORMAT

  const FOURCC_DXT1: int := 0x31545844
  const FOURCC_DX10: int := 0x30315844
  const FOURCC_BC5: int := 0x32495441
  const FOURCC_DXT5: int := 0x35545844

  const DXGI_FORMAT_BC7_UNORM: int := 98
  const DXGI_FORMAT_BC7_UNORM_SRGB: int := 99

  /** The texture formats the reader can produce. */
  datatype Format = DXT1 | BC5 | DXT5 | BC7

  /** What `new Texture2D(width, height, format, mipmaps)` followed by
      `LoadRawTextureData(content)` receives. */
  datatype Texture = Texture(width: int, height: int, format: Format, mipmaps: bool, content: seq<byte>)

  /** DXT1 stores 4x4 blocks of 8 bytes, the other formats blocks of 16. */
  function LayoutOf(f: Format): Textures.Layout
  {
    if f == DXT1 then Textures.Blocks8 else Textures.Blocks16
  }

  /** Unity creates the texture and loads its content without throwing:
      a positive size, and content that covers the top level, or the whole
      mip chain when the texture has one. */
  predicate Creatable(t: Texture)
  {
    Textures.Loads(LayoutOf(t.format), t.width, t.height, t.mipmaps, |t.content|)
  }

  /** The cursor position `startFrom + k` as an unchecked C# `int` sum. */
  function At(startFrom: int, k: int): int
  {
    Int32.Wrap(startFrom + k)
  }

  /** The 32-bit pattern of a C# `int`. */
  function Bits(x: int): bv32
    requires Int32.InRange(x)
  {
    (if x < 0 then x + Int32.MODULUS else x) as bv32
  }

  /** `(dwFlags & REQUIRED_DDSD_FLAGS) == REQUIRED_DDSD_FLAGS`. */
  predicate HasRequiredFlags(flags: int)
    requires Int32.InRange(flags)
  {
    Bits(flags) & REQUIRED_DDSD_FLAGS == REQUIRED_DDSD_FLAGS
  }

  /** `IsDx10ExtensionAboutBc7`: the DXGI format word of the extension
      header names one of the two BC7 formats; reading it throws when the
      four bytes are not there. */
  function IsDx10ExtensionAboutBc7(data: seq<byte>, dds10HeaderStart: int): (r: Run<bool>)
    ensures r.Ok? <==> InBounds(data, dds10HeaderStart, 4)
    ensures r.Ok? ==> (r.value <==> U32At(data, dds10HeaderStart) in {DXGI_FORMAT_BC7_UNORM, DXGI_FORMAT_BC7_UNORM_SRGB})
  {
    match ReadU32(data, dds10HeaderStart)
    case Fault => Fault
    case Ok(dxgiFormat) => Ok(dxgiFormat == DXGI_FORMAT_BC7_UNORM || dxgiFormat == DXGI_FORMAT_BC7_UNORM_SRGB)
  }

  /** The fields the reader keeps from the header; pitch, depth and the
      pixel format's size and flags are read but not used. */
  datatype Fields = Fields(height: int, width: int, mipmapCount: int, fourCC: int)

  /** The signature checks, in order: the magic word, the header size and
      the required flags.  `Ok(false)` where the source logs an error and
      returns null, `Fault` where a read throws. */
  function Signature(data: seq<byte>, startFrom: int): (r: Run<bool>)
  {
    if !InBounds(data, startFrom, 4) then Fault
    else if U32At(data, startFrom) != DDS_FILE_MAGIC then Ok(false)
    else if !InBounds(data, At(startFrom, 4), 4) then Fault
    else if I32At(data, At(startFrom, 4)) != DDS_HEADER_SIZE then Ok(false)
    else if !InBounds(data, At(startFrom, 8), 4) then Fault
    else Ok(HasRequiredFlags(I32At(data, At(startFrom, 8))))
  }

  /** The reads after the flags: height, width, pitch, depth, mipmap count,
      then, past the eleven reserved words, the pixel format's size, flags
      and FourCC code.  Each throws when its four bytes are not there. */
  function FieldsOf(data: seq<byte>, startFrom: int): (r: Run<Fields>)
  {
    if && InBounds(data, At(startFrom, 12), 4)
       && InBounds(data, At(startFrom, 16), 4)
       && InBounds(data, At(startFrom, 20), 4)
       && InBounds(data, At(startFrom, 24), 4)
       && InBounds(data, At(startFrom, 28), 4)
       && InBounds(data, At(startFrom, 76), 4)
       && InBounds(data, At(startFrom, 80), 4)
       && InBounds(data, At(startFrom, 84), 4)
    then Ok(Fields(I32At(data, At(startFrom, 12)), I32At(data, At(startFrom, 16)),
                   I32At(data, At(startFrom, 28)), I32At(data, At(startFrom, 84))))
    else Fault
  }

  /** The format switch on the FourCC code: the format and the position of
      the texture data, `None` for a format the reader does not know. */
  function FormatOf(data: seq<byte>, startFrom: int, fourCC: int): (r: Run<Option<(Format, int)>>)
  {
    var dataStart := At(startFrom, DDS_FILE_MAGIC_SIZE + DDS_HEADER_SIZE);
    if fourCC == FOURCC_DX10 then
      match IsDx10ExtensionAboutBc7(data, dataStart)
      case Fault => Fault
      case Ok(isBc7) =>
        if isBc7 then Ok(Some((BC7, At(startFrom, DDS_FILE_MAGIC_SIZE + DDS_HEADER_WITH_DXT10_SIZE))))
        else Ok(None)
    else if fourCC == FOURCC_DXT1 then Ok(Some((DXT1, dataStart)))
    else if fourCC == FOURCC_BC5 then Ok(Some((BC5, dataStart)))
    else if fourCC == FOURCC_DXT5 then Ok(Some((DXT5, dataStart)))
    else Ok(None)
  }

  /** `new byte[ddsData.Length - dataStart]` and the block copy of the rest
      of the array into it: a negative length or a bad range throws.  For
      an array that .NET can hold, that is exactly a start outside it, and
      the content is the whole rest of the array. */
  function Payload(data: seq<byte>, dataStart: int): (r: Run<seq<byte>>)
    ensures |data| <= Int32.MAX ==> (r.Ok? <==> 0 <= dataStart <= |data|)
    ensures |data| <= Int32.MAX && r.Ok? ==> r.value == data[dataStart..]
  {
    var length := Int32.Wrap(|data| - dataStart);
    if length < 0 || !BlockCopyOk(data, dataStart, length, length) then Fault
    else Ok(data[dataStart..dataStart + length])
  }

  /** The texture built from the header fields once the format is known;
      Unity throws when it cannot create it. */
  function TextureOf(data: seq<byte>, startFrom: int, f: Fields): (r: Run<Option<Texture>>)
  {
    match FormatOf(data, startFrom, f.fourCC)
    case Fault => Fault
    case Ok(None) => Ok(None)
    case Ok(Some((format, dataStart))) =>
      match Payload(data, dataStart)
      case Fault => Fault
      case Ok(content) =>
        var t := Texture(f.width, f.height, format, f.mipmapCount > 1, content);
        if Creatable(t) then Ok(Some(t)) else Fault
  }

  /** The reader's outcome: `Ok(None)` where the source logs an error and
      returns null, `Fault` where a read or the copy throws. */
  function DdsOf(data: seq<byte>, startFrom: int): Run<Option<Texture>>
  {
    if |data| < DDS_HEADER_SIZE + DDS_FILE_MAGIC_SIZE then Ok(None)
    else match Signature(data, startFrom)
      case Fault => Fault
      case Ok(false) => Ok(None)
      case Ok(true) =>
        match FieldsOf(data, startFrom)
        case Fault => Fault
        case Ok(f) => TextureOf(data, startFrom, f)
  }

  /** `Parse(ddsData, startFrom)`: walks a cursor through the header with
      unchecked `int` additions and returns the texture, or null. */
  method Parse(ddsData: seq<byte>, startFrom: int) returns (r: Run<Option<Texture>>)
    requires Int32.InRange(startFrom)
    ensures r == DdsOf(ddsData, startFrom)
  {
    if |ddsData| < DDS_HEADER_SIZE + DDS_FILE_MAGIC_SIZE {
      return Ok(None);
    }
    var signature, cursor := CheckSignature(ddsData, startFrom);
    if signature.Fault? {
      return Fault;
    }
    if !signature.value {
      return Ok(None);
    }
    var fields := ReadFields(ddsData, startFrom, cursor);
    if fields.Fault? {
      return Fault;
    }
    r := MakeTexture(ddsData, startFrom, fields.value);
  }

  /** The magic, size and flags checks, leaving the cursor on the height. */
  method CheckSignature(ddsData: seq<byte>, startFrom: int) returns (r: Run<bool>, cursor: int)
    requires Int32.InRange(startFrom)
    ensures r == Signature(ddsData, startFrom)
    ensures r == Ok(true) ==> cursor == At(startFrom, 12)
  {
    cursor := startFrom;
    var magic := ReadU32(ddsData, cursor);
    if magic.Fault? {
      return Fault, cursor;
    }
    if magic.value != DDS_FILE_MAGIC {
      return Ok(false), cursor;
    }
    cursor := Next(startFrom, cursor, 0, 4);

    var structureSize := ReadI32(ddsData, cursor);
    if structureSize.Fault? {
      return Fault, cursor;
    }
    cursor := Next(startFrom, cursor, 4, 4);
    if structureSize.value != DDS_HEADER_SIZE {
      return Ok(false), cursor;
    }

    var dwFlags := ReadI32(ddsData, cursor);
    if dwFlags.Fault? {
      return Fault, cursor;
    }
    cursor := Next(startFrom, cursor, 8, 4);
    r := Ok(HasRequiredFlags(dwFlags.value));
  }

  /** The remaining header reads, from the height to the FourCC code. */
  method ReadFields(ddsData: seq<byte>, startFrom: int, cursor0: int) returns (r: Run<Fields>)
    requires Int32.InRange(startFrom) && cursor0 == At(startFrom, 12)
    ensures r == FieldsOf(ddsData, startFrom)
  {
    var cursor := cursor0;
    var imageHeight := ReadI32(ddsData, cursor);
    if imageHeight.Fault? {
      return Fault;
    }
    cursor := Next(startFrom, cursor, 12, 4);
    var imageWidth := ReadI32(ddsData, cursor);
    if imageWidth.Fault? {
      return Fault;
    }
    cursor := Next(startFrom, cursor, 16, 4);
    var pitch := ReadI32(ddsData, cursor);
    if pitch.Fault? {
      return Fault;
    }
    cursor := Next(startFrom, cursor, 20, 4);
    var depth := ReadI32(ddsData, cursor);
    if depth.Fault? {
      return Fault;
    }
    cursor := Next(startFrom, cursor, 24, 4);
    var mipmapCount := ReadI32(ddsData, cursor);
    if mipmapCount.Fault? {
      return Fault;
    }
    cursor := Next(startFrom, cursor, 28, 4);

    // the eleven reserved words
    cursor := Next(startFrom, cursor, 32, 4 * 11);

    var pixelFormatSize := ReadI32(ddsData, cursor);
    if pixelFormatSize.Fault? {
      return Fault;
    }
    cursor := Next(startFrom, cursor, 76, 4);
    var pixelFormatFlags := ReadI32(ddsData, cursor);
    if pixelFormatFlags.Fault? {
      return Fault;
    }
    cursor := Next(startFrom, cursor, 80, 4);
    var dx9FourCC := ReadI32(ddsData, cursor);
    if dx9FourCC.Fault? {
      return Fault;
    }
    r := Ok(Fields(imageHeight.value, imageWidth.value, mipmapCount.value, dx9FourCC.value));
  }

  /** The format switch, the copy of the texture data and the creation of
      the texture. */
  method MakeTexture(ddsData: seq<byte>, startFrom: int, fields: Fields) returns (r: Run<Option<Texture>>)
    requires Int32.InRange(startFrom)
    ensures r == TextureOf(ddsData, startFrom, fields)
  {
    var format: Format;
    var dataStart := Int32.Wrap(startFrom + DDS_FILE_MAGIC_SIZE + DDS_HEADER_SIZE);
    if fields.fourCC == FOURCC_DX10 {
      var isBc7 := IsDx10ExtensionAboutBc7(ddsData, dataStart);
      if isBc7.Fault? {
        return Fault;
      }
      if isBc7.value {
        dataStart := Int32.Wrap(startFrom + DDS_FILE_MAGIC_SIZE + DDS_HEADER_WITH_DXT10_SIZE);
        format := BC7;
      } else {
        return Ok(None);
      }
    } else if fields.fourCC == FOURCC_DXT1 {
      format := DXT1;
    } else if fields.fourCC == FOURCC_BC5 {
      format := BC5;
    } else if fields.fourCC == FOURCC_DXT5 {
      format := DXT5;
    } else {
      return Ok(None);
    }

    var hasMipmap := fields.mipmapCount > 1;
    var contentLength := Int32.Wrap(|ddsData| - dataStart);
    if contentLength < 0 || !BlockCopyOk(ddsData, dataStart, contentLength, contentLength) {
      return Fault;
    }
    var content := ddsData[dataStart..dataStart + contentLength];
    var texture := Texture(fields.width, fields.height, format, hasMipmap, content);
    if !Creatable(texture) {
      return Fault;
    }
    r := Ok(Some(texture));
  }

  /** `cursor += d` where the cursor stands at `startFrom + k`. */
  method Next(ghost startFrom: int, cursor: int, ghost k: int, d: int) returns (c: int)
    requires Int32.InRange(startFrom) && 0 <= k && 0 <= d && k + d <= 0x1000
    requires cursor == At(startFrom, k)
    ensures c == At(startFrom, k + d)
  {
    c := Int32.Wrap(cursor + d);
    Int32.WrapAdd(startFrom, k, d);
  }

  // ---------------------------------------------------------------------
  // What an accepted file looks like.

  /** Close to a valid position, the unchecked cursor sum either stays
      put or turns negative. */
  lemma AtNear(startFrom: int, k: int)
    requires 0 <= startFrom <= Int32.MAX && 0 <= k <= 0x1000
    ensures At(startFrom, k) == startFrom + k || At(startFrom, k) < 0
  {
    Int32.WrapOnce(startFrom + k);
  }

  /** A texture is produced only for a file whose magic word, header size
      and required flags are right, read at their fixed offsets. */
  lemma AcceptedSignature(data: seq<byte>, startFrom: int)
    requires |data| <= Int32.MAX
    requires Signature(data, startFrom) == Ok(true)
    ensures 0 <= startFrom && startFrom + 12 <= |data|
    ensures U32At(data, startFrom) == DDS_FILE_MAGIC
    ensures I32At(data, startFrom + 4) == DDS_HEADER_SIZE
    ensures HasRequiredFlags(I32At(data, startFrom + 8))
  {
    AtNear(startFrom, 4);
    AtNear(startFrom, 8);
  }

  /** The fields come from their fixed offsets: height at 12, width at 16,
      the mipmap count at 28 and the FourCC code at 84, and the whole
      88-byte prefix of the header is there. */
  lemma AcceptedFields(data: seq<byte>, startFrom: int)
    requires |data| <= Int32.MAX && 0 <= startFrom <= Int32.MAX
    requires FieldsOf(data, startFrom).Ok?
    ensures startFrom + 88 <= |data|
    ensures FieldsOf(data, startFrom).value
         == Fields(I32At(data, startFrom + 12), I32At(data, startFrom + 16),
                   I32At(data, startFrom + 28), I32At(data, startFrom + 84))
  {
    AtNear(startFrom, 12);
    AtNear(startFrom, 16);
    AtNear(startFrom, 28);
    AtNear(startFrom, 84);
  }

  /** The FourCC table: DXT1, BC5 and DXT5 map to their own formats and
      take the data right after the 128-byte header; DX10 gives BC7 only
      for the two BC7 DXGI formats and takes the data after the 20-byte
      extension header. */
  lemma AcceptedFormat(data: seq<byte>, startFrom: int, f: Fields)
    requires |data| <= Int32.MAX && 0 <= startFrom <= Int32.MAX
    requires TextureOf(data, startFrom, f).Ok? && TextureOf(data, startFrom, f).value.Some?
    ensures var t := TextureOf(data, startFrom, f).value.value;
      && t.width == f.width && t.height == f.height
      && t.mipmaps == (f.mipmapCount > 1)
      && (t.format == DXT1 <==> f.fourCC == FOURCC_DXT1)
      && (t.format == BC5 <==> f.fourCC == FOURCC_BC5)
      && (t.format == DXT5 <==> f.fourCC == FOURCC_DXT5)
      && (t.format == BC7 <==> f.fourCC == FOURCC_DX10)
      && Creatable(t)
  {
  }

  lemma AcceptedContent(data: seq<byte>, startFrom: int, f: Fields)
    requires |data| <= Int32.MAX && 0 <= startFrom <= Int32.MAX
    requires TextureOf(data, startFrom, f).Ok? && TextureOf(data, startFrom, f).value.Some?
    ensures var t := TextureOf(data, startFrom, f).value.value;
      && (t.format == BC7 ==>
            && startFrom + 148 <= |data|
            && U32At(data, startFrom + 128) in {DXGI_FORMAT_BC7_UNORM, DXGI_FORMAT_BC7_UNORM_SRGB}
            && t.content == data[startFrom + 148..])
      && (t.format != BC7 ==> startFrom + 128 <= |data| && t.content == data[startFrom + 128..])
  {
    AtNear(startFrom, 128);
    AtNear(startFrom, 148);
  }

  /** Together: the texture of an accepted file, from the file's bytes. */
  lemma Accepted(data: seq<byte>, startFrom: int, t: Texture)
    requires |data| <= Int32.MAX
    requires DdsOf(data, startFrom) == Ok(Some(t))
    ensures |data| >= DDS_HEADER_SIZE + DDS_FILE_MAGIC_SIZE
    ensures 0 <= startFrom && startFrom + 128 <= |data|
    ensures U32At(data, startFrom) == DDS_FILE_MAGIC
    ensures I32At(data, startFrom + 4) == DDS_HEADER_SIZE
    ensures HasRequiredFlags(I32At(data, startFrom + 8))
    ensures t.height == I32At(data, startFrom + 12)
    ensures t.width == I32At(data, startFrom + 16)
    ensures t.mipmaps == (I32At(data, startFrom + 28) > 1)
    ensures t.format == BC7 <==> I32At(data, startFrom + 84) == FOURCC_DX10
    ensures t.format != BC7 ==> t.content == data[startFrom + 128..]
    ensures Creatable(t)
  {
    AcceptedSignature(data, startFrom);
    var f := FieldsOf(data, startFrom).value;
    AcceptedFields(data, startFrom);
    AcceptedFormat(data, startFrom, f);
    AcceptedContent(data, startFrom, f);
  }

  /** The null results: a short array at any offset, and a well-formed
      header whose FourCC code is not in the table, or whose DX10
      extension names a format other than BC7. */
  lemma Rejected(data: seq<byte>, startFrom: int)
    ensures |data| < DDS_HEADER_SIZE + DDS_FILE_MAGIC_SIZE ==> DdsOf(data, startFrom) == Ok(None)
    ensures && |data| >= DDS_HEADER_SIZE + DDS_FILE_MAGIC_SIZE
            && Signature(data, startFrom) == Ok(true)
            && FieldsOf(data, startFrom).Ok?
            && FieldsOf(data, startFrom).value.fourCC !in {FOURCC_DX10, FOURCC_DXT1, FOURCC_BC5, FOURCC_DXT5}
            ==> DdsOf(data, startFrom) == Ok(None)
    ensures && |data| >= DDS_HEADER_SIZE + DDS_FILE_MAGIC_SIZE
            && Signature(data, startFrom) == Ok(true)
            && FieldsOf(data, startFrom).Ok?
            && FieldsOf(data, startFrom).value.fourCC == FOURCC_DX10
            && IsDx10ExtensionAboutBc7(data, At(startFrom, 128)) == Ok(false)
            ==> DdsOf(data, startFrom) == Ok(None)
  {
  }

  // ---------------------------------------------------------------------
  // The writer side: a header laid out word by word, to state round trips.

  /** The header words a writer chooses; reserved words are written as 0. */
  datatype Header = Header(flags: int, height: int, width: int, pitch: int, depth: int,
                           mipmapCount: int, pixelFormatSize: int, pixelFormatFlags: int, fourCC: int)

  predicate WordsInRange(ws: seq<int>)
  {
    forall i :: 0 <= i < |ws| ==> Int32.InRange(ws[i])
  }

  predicate HeaderInRange(h: Header)
  {
    && Int32.InRange(h.flags) && Int32.InRange(h.height) && Int32.InRange(h.width)
    && Int32.InRange(h.pitch) && Int32.InRange(h.depth) && Int32.InRange(h.mipmapCount)
    && Int32.InRange(h.pixelFormatSize) && Int32.InRange(h.pixelFormatFlags) && Int32.InRange(h.fourCC)
  }

  /** `n` zero words. */
  function ZeroWords(n: nat): (ws: seq<int>)
    ensures |ws| == n && forall i :: 0 <= i < n ==> ws[i] == 0
  {
    seq(n, _ => 0)
  }

  /** The magic word and the 31 words of the 124-byte header. */
  function HeaderWords(h: Header): (ws: seq<int>)
    ensures |ws| == 32
  {
    [DDS_FILE_MAGIC, DDS_HEADER_SIZE, h.flags, h.height, h.width, h.pitch, h.depth, h.mipmapCount]
    + ZeroWords(11)
    + [h.pixelFormatSize, h.pixelFormatFlags, h.fourCC]
    + ZeroWords(10)
  }

  /** Little-endian words, one after the other. */
  function Words(ws: seq<int>): (s: seq<byte>)
    requires WordsInRange(ws)
    ensures |s| == 4 * |ws|
  {
    if ws == [] then [] else EncodeI32(ws[0]) + Words(ws[1..])
  }

  /** Word k of an encoded sequence reads back at offset 4k. */
  lemma {:induction false} WordsRead(ws: seq<int>, k: nat, prefix: seq<byte>, suffix: seq<byte>)
    requires WordsInRange(ws) && k < |ws|
    ensures InBounds(prefix + Words(ws) + suffix, |prefix| + 4 * k, 4)
    ensures I32At(prefix + Words(ws) + suffix, |prefix| + 4 * k) == ws[k]
  {
    var rest := Words(ws[1..]);
    assert Words(ws) == EncodeI32(ws[0]) + rest;
    if k == 0 {
      assert prefix + Words(ws) + suffix == prefix + EncodeI32(ws[0]) + (rest + suffix);
      I32RoundTrip(ws[0], prefix, rest + suffix);
    } else {
      assert prefix + Words(ws) + suffix == (prefix + EncodeI32(ws[0])) + rest + suffix;
      WordsRead(ws[1..], k - 1, prefix + EncodeI32(ws[0]), suffix);
    }
  }

  /** A non-negative `ToInt32` value is also the `ToUInt32` value. */
  lemma SignedIsUnsigned(data: seq<byte>, at: int)
    requires InBounds(data, at, 4) && I32At(data, at) >= 0
    ensures U32At(data, at) == I32At(data, at)
  {
  }

  /** The words of a header with the required flags read back as a passed
      signature. */
  lemma SignatureRoundTrip(h: Header, prefix: seq<byte>, suffix: seq<byte>)
    requires HeaderInRange(h) && HasRequiredFlags(h.flags)
    requires |prefix| + 128 <= Int32.MAX
    ensures WordsInRange(HeaderWords(h))
    ensures Signature(prefix + Words(HeaderWords(h)) + suffix, |prefix|) == Ok(true)
  {
    var ws := HeaderWords(h);
    var s := |prefix|;
    WordsRead(ws, 0, prefix, suffix);
    SignedIsUnsigned(prefix + Words(ws) + suffix, s);
    WordsRead(ws, 1, prefix, suffix);
    WordsRead(ws, 2, prefix, suffix);
  }

  /** The header's fields read back at their offsets. */
  lemma FieldsRoundTrip(h: Header, prefix: seq<byte>, suffix: seq<byte>)
    requires HeaderInRange(h)
    requires |prefix| + 128 <= Int32.MAX
    ensures WordsInRange(HeaderWords(h))
    ensures FieldsOf(prefix + Words(HeaderWords(h)) + suffix, |prefix|)
         == Ok(Fields(h.height, h.width, h.mipmapCount, h.fourCC))
  {
    var ws := HeaderWords(h);
    WordsRead(ws, 3, prefix, suffix);
    WordsRead(ws, 4, prefix, suffix);
    WordsRead(ws, 5, prefix, suffix);
    WordsRead(ws, 6, prefix, suffix);
    WordsRead(ws, 7, prefix, suffix);
    WordsRead(ws, 19, prefix, suffix);
    WordsRead(ws, 20, prefix, suffix);
    WordsRead(ws, 21, prefix, suffix);
  }

  /** The format a DX9 FourCC code stands for. */
  function Dx9Format(fourCC: int): Format
    requires fourCC in {FOURCC_DXT1, FOURCC_BC5, FOURCC_DXT5}
  {
    if fourCC == FOURCC_DXT1 then DXT1 else if fourCC == FOURCC_BC5 then BC5 else DXT5
  }

  /** The texture of a DX9 header whose data follows it, or a throw when
      Unity cannot create it. */
  lemma Dx9Texture(data: seq<byte>, startFrom: int, f: Fields, payload: seq<byte>)
    requires f.fourCC in {FOURCC_DXT1, FOURCC_BC5, FOURCC_DXT5}
    requires 0 <= startFrom && startFrom + 128 <= |data| <= Int32.MAX
    requires data[startFrom + 128..] == payload
    ensures var t := Texture(f.width, f.height, Dx9Format(f.fourCC), f.mipmapCount > 1, payload);
      TextureOf(data, startFrom, f) == if Creatable(t) then Ok(Some(t)) else Fault
  {
    assert At(startFrom, 128) == startFrom + 128;
  }

  /** The texture of a DX10 header whose extension names BC7, or a throw
      when Unity cannot create it. */
  lemma Bc7Texture(data: seq<byte>, startFrom: int, f: Fields, payload: seq<byte>)
    requires f.fourCC == FOURCC_DX10
    requires 0 <= startFrom && startFrom + 148 <= |data| <= Int32.MAX
    requires U32At(data, startFrom + 128) in {DXGI_FORMAT_BC7_UNORM, DXGI_FORMAT_BC7_UNORM_SRGB}
    requires data[startFrom + 148..] == payload
    ensures var t := Texture(f.width, f.height, BC7, f.mipmapCount > 1, payload);
      TextureOf(data, startFrom, f) == if Creatable(t) then Ok(Some(t)) else Fault
  {
    assert At(startFrom, 128) == startFrom + 128;
    assert At(startFrom, 148) == startFrom + 148;
  }

  /** Round trip for the DX9 formats: header, then texture data, read back
      as that texture whenever Unity can create it. */
  lemma Dx9RoundTrip(h: Header, prefix: seq<byte>, payload: seq<byte>)
    requires HeaderInRange(h) && HasRequiredFlags(h.flags)
    requires h.fourCC in {FOURCC_DXT1, FOURCC_BC5, FOURCC_DXT5}
    requires |prefix| + 128 + |payload| <= Int32.MAX
    ensures WordsInRange(HeaderWords(h))
    ensures var t := Texture(h.width, h.height, Dx9Format(h.fourCC), h.mipmapCount > 1, payload);
      DdsOf(prefix + Words(HeaderWords(h)) + payload, |prefix|) == if Creatable(t) then Ok(Some(t)) else Fault
  {
    var data := prefix + Words(HeaderWords(h)) + payload;
    SignatureRoundTrip(h, prefix, payload);
    FieldsRoundTrip(h, prefix, payload);
    assert data[|prefix| + 128..] == payload;
    Dx9Texture(data, |prefix|, Fields(h.height, h.width, h.mipmapCount, h.fourCC), payload);
  }

  /** The extension header and the data behind a DX10 header. */
  lemma Dx10Tail(h: Header, ext: seq<int>, prefix: seq<byte>, payload: seq<byte>)
    requires HeaderInRange(h) && |ext| == 5 && WordsInRange(ext) && ext[0] >= 0
    ensures WordsInRange(HeaderWords(h))
    ensures var data := prefix + Words(HeaderWords(h)) + (Words(ext) + payload);
      && InBounds(data, |prefix| + 128, 4)
      && U32At(data, |prefix| + 128) == ext[0]
      && data[|prefix| + 148..] == payload
  {
    var header := prefix + Words(HeaderWords(h));
    var data := header + (Words(ext) + payload);
    assert data == header + Words(ext) + payload;
    WordsRead(ext, 0, header, payload);
    SignedIsUnsigned(data, |prefix| + 128);
  }

  /** A passed signature, the fields and a BC7 extension give the texture,
      or a throw when Unity cannot create it. */
  lemma Bc7Accepted(data: seq<byte>, startFrom: int, f: Fields, payload: seq<byte>)
    requires |data| >= DDS_HEADER_SIZE + DDS_FILE_MAGIC_SIZE
    requires Signature(data, startFrom) == Ok(true) && FieldsOf(data, startFrom) == Ok(f)
    requires f.fourCC == FOURCC_DX10
    requires 0 <= startFrom && startFrom + 148 <= |data| <= Int32.MAX
    requires U32At(data, startFrom + 128) in {DXGI_FORMAT_BC7_UNORM, DXGI_FORMAT_BC7_UNORM_SRGB}
    requires data[startFrom + 148..] == payload
    ensures var t := Texture(f.width, f.height, BC7, f.mipmapCount > 1, payload);
      DdsOf(data, startFrom) == if Creatable(t) then Ok(Some(t)) else Fault
  {
    Bc7Texture(data, startFrom, f, payload);
  }

  /** Round trip for BC7: header with FourCC DX10, extension header naming
      a BC7 format, then texture data, read back as that texture whenever
      Unity can create it. */
  lemma Bc7RoundTrip(h: Header, ext: seq<int>, prefix: seq<byte>, payload: seq<byte>)
    requires HeaderInRange(h) && HasRequiredFlags(h.flags) && h.fourCC == FOURCC_DX10
    requires |ext| == 5 && WordsInRange(ext) && ext[0] in {DXGI_FORMAT_BC7_UNORM, DXGI_FORMAT_BC7_UNORM_SRGB}
    requires |prefix| + 148 + |payload| <= Int32.MAX
    ensures WordsInRange(HeaderWords(h))
    ensures var t := Texture(h.width, h.height, BC7, h.mipmapCount > 1, payload);
      DdsOf(prefix + Words(HeaderWords(h)) + (Words(ext) + payload), |prefix|) == if Creatable(t) then Ok(Some(t)) else Fault
  {
    SignatureRoundTrip(h, prefix, Words(ext) + payload);
    FieldsRoundTrip(h, prefix, Words(ext) + payload);
    Dx10Tail(h, ext, prefix, payload);
    Bc7Accepted(prefix + Words(HeaderWords(h)) + (Words(ext) + payload), |prefix|,
                Fields(h.height, h.width, h.mipmapCount, h.fourCC), payload);
  }
}
