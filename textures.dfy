/** What Unity demands when a loader creates a texture: `new Texture2D`
    throws for a width or height that is not positive, and
    `LoadRawTextureData` throws when it is handed fewer bytes than the
    format's layout needs for the top level, or for the whole mip chain
    when the texture has one. */
module Textures {
  /** The raw data of a format: square tiles of `edge` pixels a side,
      each stored in `bytes` bytes. */
  datatype Layout = Layout(edge: nat, bytes: nat)

  /** RGBA32 and BGRA32: four bytes a pixel. */
  const Pixels32: Layout := Layout(1, 4)
  /** DXT1: 4x4 blocks of 8 bytes. */
  const Blocks8: Layout := Layout(4, 8)
  /** DXT5, BC5 and BC7: 4x4 blocks of 16 bytes. */
  const Blocks16: Layout := Layout(4, 16)

  /** The tiles needed to cover a pixels, the last one partly used. */
  function Tiles(a: nat, edge: nat): (k: nat)
    requires edge > 0
    ensures (k - 1) * edge < a <= k * edge || (a == 0 && k == 0)
  {
    (a + edge - 1) / edge
  }

  /** The bytes of one mip level of w by h pixels. */
  function LevelBytes(l: Layout, w: nat, h: nat): nat
    requires l.edge > 0
  {
    Tiles(w, l.edge) * Tiles(h, l.edge) * l.bytes
  }

  /** Each mip level halves both dimensions, never below one pixel. */
  function Half(x: nat): nat
  {
    if x <= 1 then 1 else x / 2
  }

  /** The bytes of the whole mip chain, from w by h down to 1 by 1. */
  function ChainBytes(l: Layout, w: nat, h: nat): nat
    requires l.edge > 0 && w > 0 && h > 0
    decreases w + h
  {
    LevelBytes(l, w, h) + if w == 1 && h == 1 then 0 else ChainBytes(l, Half(w), Half(h))
  }

  /** Creating a w by h texture of layout l, with or without a mip chain,
      and loading `length` bytes into it succeeds. */
  predicate Loads(l: Layout, w: int, h: int, mipChain: bool, length: int)
  {
    && l.edge > 0 && w > 0 && h > 0
    && length >= if mipChain then ChainBytes(l, w, h) else LevelBytes(l, w, h)
  }

  /** The chain needs at least its top level, and as much again as the
      top level of its second level; a texture without a chain needs
      exactly its top level. */
  lemma {:induction false} ChainHoldsLevels(l: Layout, w: nat, h: nat)
    requires l.edge > 0 && w > 0 && h > 0
    ensures ChainBytes(l, w, h) >= LevelBytes(l, w, h)
    ensures !(w == 1 && h == 1) ==> ChainBytes(l, w, h) >= LevelBytes(l, w, h) + LevelBytes(l, Half(w), Half(h))
    ensures Loads(l, w, h, true, ChainBytes(l, w, h)) && Loads(l, w, h, false, LevelBytes(l, w, h))
  {
    if !(w == 1 && h == 1) {
      ChainHoldsLevels(l, Half(w), Half(h));
    }
  }

  /** A 32-bit pixel format needs four bytes a pixel. */
  lemma PixelBytes(w: nat, h: nat)
    ensures LevelBytes(Pixels32, w, h) == 4 * w * h
  {
  }

  /** Block formats round each side up to whole blocks: a 1 by 1 DXT5
      texture still needs a 16-byte block, and a 4 by 2 BGRA32 texture
      with its mip chain needs 32 + 8 + 4 bytes. */
  lemma LayoutExamples()
    ensures LevelBytes(Blocks16, 1, 1) == 16
    ensures LevelBytes(Blocks8, 5, 4) == 16
    ensures ChainBytes(Pixels32, 4, 2) == 44
    ensures !Loads(Blocks16, 1, 1, false, 15) && Loads(Blocks16, 1, 1, false, 16)
  {
    assert Tiles(5, 4) == 2;
    assert ChainBytes(Pixels32, 1, 1) == 4;
    assert ChainBytes(Pixels32, 2, 1) == 8 + 4;
  }
}
