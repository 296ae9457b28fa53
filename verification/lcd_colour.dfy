/** Pixel formats and colour words of stm32n6570_discovery_lcd.c, as 32-bit vectors. */
module LcdColour {
  import opened Words

  datatype Format = Rgb565 | Argb4444 | Rgb888 | Argb8888 {
    /** Bytes per pixel. */
    function Bpp(): nat {
      match this case Rgb565 => 2 case Argb4444 => 2 case Rgb888 => 3 case Argb8888 => 4
    }
  }

  // The conversions to ARGB8888 made before a register-to-memory fill.
  function Expand5(v: bv32): bv32 { (v * 527 + 23) >> 6 }
  function Expand6(v: bv32): bv32 { (v * 259 + 33) >> 6 }
  function Opaque888(r: bv32, g: bv32, b: bv32): bv32 { (r << 16) | (g << 8) | b | 0xFF00_0000 }
  function Expand565(c: bv32): bv32 {
    Opaque888(Expand5((c >> 11) & 0x1F), Expand6((c >> 5) & 0x3F), Expand5(c & 0x1F))
  }
  function Expand4444(c: bv32): bv32 {
    ((((c >> 12) & 0xF) * 17) << 24) | ((((c >> 8) & 0xF) * 17) << 16) | ((((c >> 4) & 0xF) * 17) << 8) | ((c & 0xF) * 17)
  }
  function Expand(f: Format, c: bv32): bv32 {
    match f
    case Rgb565 => Expand565(c)
    case Argb4444 => Expand4444(c)
    case Rgb888 => c | 0xFF00_0000
    case Argb8888 => c
  }

  function Pack565(r: bv32, g: bv32, b: bv32): bv32 { (r << 11) | (g << 5) | b }

  /** What the DMA2D output stage keeps of an ARGB8888 colour: the high bits of each component. */
  function Truncate(f: Format, a: bv32): bv32 {
    match f
    case Rgb565 => Pack565((a >> 19) & 0x1F, (a >> 10) & 0x3F, (a >> 3) & 0x1F)
    case Argb4444 => (((a >> 28) & 0xF) << 12) | (((a >> 20) & 0xF) << 8) | (((a >> 12) & 0xF) << 4) | ((a >> 4) & 0xF)
    case Rgb888 => a & 0x00FF_FFFF
    case Argb8888 => a
  }

  /** The bits of a colour argument that a pixel of the format holds. */
  function Held(f: Format, c: bv32): bv32 {
    match f
    case Rgb565 => c & 0xFFFF
    case Argb4444 => c & 0xFFFF
    case Rgb888 => c & 0x00FF_FFFF
    case Argb8888 => c
  }

  lemma RedBlue565(v: bv32)
    requires v < 32
    ensures Expand5(v) < 256 && Expand5(v) >> 3 == v
  {
  }

  lemma Green565(v: bv32)
    requires v < 64
    ensures Expand6(v) < 256 && Expand6(v) >> 2 == v
  {
  }

  lemma Nibble4444(v: bv32)
    requires v < 16
    ensures v * 17 < 256 && (v * 17) >> 4 == v
  {
  }

  lemma Join565(r: bv32, g: bv32, b: bv32)
    requires r < 256 && g < 256 && b < 256
    ensures Truncate(Rgb565, Opaque888(r, g, b)) == Pack565(r >> 3, g >> 2, b >> 3)
  {
  }

  lemma Join4444(a: bv32, r: bv32, g: bv32, b: bv32)
    requires a < 256 && r < 256 && g < 256 && b < 256
    ensures Truncate(Argb4444, (a << 24) | (r << 16) | (g << 8) | b)
         == ((a >> 4) << 12) | ((r >> 4) << 8) | ((g >> 4) << 4) | (b >> 4)
  {
  }

  lemma ExpandedFields(r: bv32, g: bv32, b: bv32)
    requires r < 32 && g < 64 && b < 32
    ensures Truncate(Rgb565, Opaque888(Expand5(r), Expand6(g), Expand5(b))) == Pack565(r, g, b)
  {
    hide Truncate, Expand5, Expand6, Opaque888, Pack565;
    RedBlue565(r);
    Green565(g);
    RedBlue565(b);
    Join565(Expand5(r), Expand6(g), Expand5(b));
  }

  lemma ExpandTruncate565(c: bv32)
    ensures Truncate(Rgb565, Expand565(c)) == c & 0xFFFF
  {
    hide Truncate, Expand5, Expand6, Opaque888, Pack565;
    Masked565(c);
    Fields565(c);
    ExpandedFields((c >> 11) & 0x1F, (c >> 5) & 0x3F, c & 0x1F);
  }

  lemma ExpandTruncate4444(c: bv32)
    ensures Truncate(Argb4444, Expand4444(c)) == c & 0xFFFF
  {
    var a, r, g, b := (c >> 12) & 0xF, (c >> 8) & 0xF, (c >> 4) & 0xF, c & 0xF;
    Nibble4444(a);
    Nibble4444(r);
    Nibble4444(g);
    Nibble4444(b);
    Join4444(a * 17, r * 17, g * 17, b * 17);
    Fields4444(c);
    hide Truncate;
  }

  /** Expanding a colour and truncating it again gives it back, for every colour word and format. */
  lemma ExpandTruncate(f: Format, c: bv32)
    ensures Truncate(f, Expand(f, c)) == Held(f, c)
  {
    ExpandTruncate565(c);
    ExpandTruncate4444(c);
    hide Expand565, Expand4444;
  }

  lemma Fields565(c: bv32)
    ensures Pack565((c >> 11) & 0x1F, (c >> 5) & 0x3F, c & 0x1F) == c & 0xFFFF
  {
  }

  lemma Masked565(c: bv32)
    ensures (c >> 11) & 0x1F < 32 && (c >> 5) & 0x3F < 64 && c & 0x1F < 32
  {
  }

  lemma Fields4444(c: bv32)
    ensures (((c >> 12) & 0xF) << 12) | (((c >> 8) & 0xF) << 8) | (((c >> 4) & 0xF) << 4) | (c & 0xF) == c & 0xFFFF
  {
  }

  /** Byte k of a colour word in memory order. */
  function ByteOf(c: bv32, k: nat): Byte
    requires k < 4
  {
    if k == 0 then (c & 0xFF) as Byte
    else if k == 1 then ((c >> 8) & 0xFF) as Byte
    else if k == 2 then ((c >> 16) & 0xFF) as Byte
    else (c >> 24) as Byte
  }

  /** The bytes of a colour word in memory order, cut to the pixel size. */
  function Bytes(f: Format, c: bv32): (r: seq<Byte>)
    ensures |r| == f.Bpp()
  {
    seq(f.Bpp(), k requires 0 <= k < f.Bpp() => ByteOf(c, k))
  }

  /** A fill stores the same bytes for a colour as a pixel write. */
  lemma FillBytes(f: Format, c: bv32)
    ensures Bytes(f, Truncate(f, Expand(f, c))) == Bytes(f, c)
  {
    ExpandTruncate(f, c);
    hide Expand, Truncate, ByteOf;
    forall k | 0 <= k < f.Bpp() ensures ByteOf(Held(f, c), k) == ByteOf(c, k) {
      HeldByte(f, c, k);
    }
  }

  lemma HeldByte(f: Format, c: bv32, k: nat)
    requires k < f.Bpp()
    ensures ByteOf(Held(f, c), k) == ByteOf(c, k)
  {
    assert (c & 0xFFFF) & 0xFF == c & 0xFF && ((c & 0xFFFF) >> 8) & 0xFF == (c >> 8) & 0xFF;
    assert (c & 0x00FF_FFFF) & 0xFF == c & 0xFF && ((c & 0x00FF_FFFF) >> 8) & 0xFF == (c >> 8) & 0xFF;
    assert ((c & 0x00FF_FFFF) >> 16) & 0xFF == (c >> 16) & 0xFF;
  }

  function Join2(a: Byte, b: Byte): bv32 { (a as bv32) | ((b as bv32) << 8) }
  function Join3(a: Byte, b: Byte, c: Byte): bv32 { Join2(a, b) | ((c as bv32) << 16) }
  function Join4(a: Byte, b: Byte, c: Byte, d: Byte): bv32 { Join3(a, b, c) | ((d as bv32) << 24) }

  /** The colour word that ReadPixel makes of the bytes of a pixel. */
  function FromBytes(f: Format, b: seq<Byte>): bv32
    requires |b| == f.Bpp()
  {
    match f
    case Argb8888 => Join4(b[0], b[1], b[2], b[3])
    case Rgb888 => Join3(b[0], b[1], b[2])
    case Rgb565 => Join2(b[0], b[1])
    case Argb4444 => Join2(b[0], b[1])
  }

  /** Reading a pixel gives back the bits of the colour that the format holds. */
  lemma ReadBack(f: Format, c: bv32)
    ensures FromBytes(f, Bytes(f, c)) == Held(f, c)
  {
    Reassemble(c);
    hide ByteOf, Join2, Join3, Join4;
  }

  lemma ByteValues(c: bv32)
    ensures (ByteOf(c, 0) as bv32) == c & 0xFF
    ensures (ByteOf(c, 1) as bv32) == (c >> 8) & 0xFF
    ensures (ByteOf(c, 2) as bv32) == (c >> 16) & 0xFF
    ensures (ByteOf(c, 3) as bv32) == c >> 24
  {
  }

  lemma Reassemble2(c: bv32, b0: Byte, b1: Byte)
    requires (b0 as bv32) == c & 0xFF && (b1 as bv32) == (c >> 8) & 0xFF
    ensures Join2(b0, b1) == c & 0xFFFF
  {
  }

  lemma Reassemble3(c: bv32, b0: Byte, b1: Byte, b2: Byte)
    requires Join2(b0, b1) == c & 0xFFFF && (b2 as bv32) == (c >> 16) & 0xFF
    ensures Join3(b0, b1, b2) == c & 0x00FF_FFFF
  {
    hide Join2;
    assert (c & 0xFFFF) | (((c >> 16) & 0xFF) << 16) == c & 0x00FF_FFFF;
  }

  lemma Reassemble4(c: bv32, b0: Byte, b1: Byte, b2: Byte, b3: Byte)
    requires Join3(b0, b1, b2) == c & 0x00FF_FFFF && (b3 as bv32) == c >> 24
    ensures Join4(b0, b1, b2, b3) == c
  {
    hide Join3;
  }

  lemma Reassemble(c: bv32)
    ensures Join2(ByteOf(c, 0), ByteOf(c, 1)) == c & 0xFFFF
    ensures Join3(ByteOf(c, 0), ByteOf(c, 1), ByteOf(c, 2)) == c & 0x00FF_FFFF
    ensures Join4(ByteOf(c, 0), ByteOf(c, 1), ByteOf(c, 2), ByteOf(c, 3)) == c
  {
    hide *;
    ByteValues(c);
    Reassemble2(c, ByteOf(c, 0), ByteOf(c, 1));
    Reassemble3(c, ByteOf(c, 0), ByteOf(c, 1), ByteOf(c, 2));
    Reassemble4(c, ByteOf(c, 0), ByteOf(c, 1), ByteOf(c, 2), ByteOf(c, 3));
  }
}
