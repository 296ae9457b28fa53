/** The drawing functions of stm32n6570_discovery_lcd.c on a byte framebuffer: strided DMA2D fills,
    bitmap blits and single pixels, all against one picture of what changes where. */
module LcdDraw {
  import opened Arithmetic
  import opened LcdColour
  import opened Words

  /** What the drawing functions report; BSP_ERROR_NONE is all there is. */
  datatype Status = NoError

  /** Byte b of the pixel at column i, row j. */
  type Picture = (int, int, int) -> Byte

  /** Every pixel the same. */
  function Solid(pix: seq<Byte>): Picture {
    (i: int, j: int, b: int) => if 0 <= b < |pix| then pix[b] else 0
  }

  datatype Screen = Screen(xSize: nat, ySize: nat, format: Format) {
    predicate Valid() { xSize > 0 }
    function Bpp(): (r: nat) ensures r > 0 { format.Bpp() }
    function Size(): nat { Bpp() * (xSize * ySize) }
    /** The offset of a pixel from the framebuffer start. */
    function Address(x: nat, y: nat): nat { Bpp() * (xSize * y + x) }
    predicate Inside(x: nat, y: nat, w: nat, h: nat) { x + w <= xSize && y + h <= ySize }

    // The pixel that WritePixel stores: its RGB888 addresses are three bytes, one pixel, too low.
    function WrittenColumn(x: nat): nat
      requires Valid()
    {
      if format != Rgb888 then x else if x > 0 then x - 1 else xSize - 1
    }
    function WrittenRow(x: nat, y: nat): nat
      requires format == Rgb888 ==> x != 0 || y != 0
    {
      if format == Rgb888 && x == 0 then y - 1 else y
    }

    // The pixel that byte k of the framebuffer belongs to.
    function Column(k: nat): nat requires Valid() { k / Bpp() % xSize }
    function Row(k: nat): nat requires Valid() { k / Bpp() / xSize }

    predicate Covers(x: nat, y: nat, w: nat, h: nat, k: nat)
      requires Valid()
    {
      x <= Column(k) < x + w && y <= Row(k) < y + h
    }

    /** Byte k of the framebuffer after a picture was drawn at (x, y), w pixels wide and h high. */
    function ByteAfter(fb: seq<Byte>, x: nat, y: nat, w: nat, h: nat, pic: Picture, k: nat): Byte
      requires Valid() && k < |fb|
    {
      if Covers(x, y, w, h, k) then pic(Column(k) - x, Row(k) - y, k % Bpp()) else fb[k]
    }

    /** The framebuffer after a picture was drawn: the pixels of the rectangle, and no other byte, change. */
    ghost predicate Drawn(fb: seq<Byte>, x: nat, y: nat, w: nat, h: nat, pic: Picture, after: seq<Byte>)
      requires Valid()
    {
      |after| == |fb| && forall k :: 0 <= k < |fb| ==> after[k] == ByteAfter(fb, x, y, w, h, pic, k)
    }

    /** The same, but of the picture's rows only the given ones, the others being left as they were. */
    ghost predicate RowsDrawn(fb: seq<Byte>, x: nat, y: nat, w: nat, h: nat, pic: Picture, rows: set<int>, after: seq<Byte>)
      requires Valid()
    {
      && |after| == |fb|
      && forall k :: 0 <= k < |fb| ==> after[k] == if Row(k) - y in rows then ByteAfter(fb, x, y, w, h, pic, k) else fb[k]
    }
  }

  // ---- address arithmetic ----

  lemma AddressBounds(s: Screen, x: nat, y: nat)
    requires s.Valid() && x < s.xSize && y < s.ySize
    ensures s.Address(x, y) + s.Bpp() <= s.Size()
  {
    ProductBound(s.xSize, y + 1, s.xSize, s.ySize);
    assert s.xSize * (y + 1) == s.xSize * y + s.xSize;
    ProductBound(s.Bpp(), s.xSize * y + x + 1, s.Bpp(), s.xSize * s.ySize);
    assert s.Bpp() * (s.xSize * y + x + 1) == s.Bpp() * (s.xSize * y + x) + s.Bpp();
  }

  lemma AddressBytes(s: Screen, x: nat, y: nat, b: nat)
    requires s.Valid() && x < s.xSize && b < s.Bpp()
    ensures s.Column(s.Address(x, y) + b) == x && s.Row(s.Address(x, y) + b) == y
    ensures (s.Address(x, y) + b) % s.Bpp() == b
  {
    DivMod(s.Address(x, y) + b, s.xSize * y + x, b, s.Bpp());
    DivMod(s.xSize * y + x, y, x, s.xSize);
  }

  lemma ByteAddress(s: Screen, k: nat)
    requires s.Valid()
    ensures s.Column(k) < s.xSize && k == s.Address(s.Column(k), s.Row(k)) + k % s.Bpp()
  {
    var p := k / s.Bpp();
    assert k == p * s.Bpp() + k % s.Bpp();
    assert p == (p / s.xSize) * s.xSize + p % s.xSize;
  }

  // ---- composing drawings ----

  /** Bytes stored at one pixel's address draw that pixel. */
  lemma StoreDraws(s: Screen, fb: seq<Byte>, x: nat, y: nat, pix: seq<Byte>, pic: Picture, after: seq<Byte>)
    requires s.Valid() && s.Inside(x, y, 1, 1) && |fb| == s.Size() && |pix| == s.Bpp()
    requires s.Address(x, y) + s.Bpp() <= |fb|
    requires after == fb[..s.Address(x, y)] + pix + fb[s.Address(x, y) + s.Bpp()..]
    requires forall b :: 0 <= b < s.Bpp() ==> pic(0, 0, b) == pix[b]
    ensures s.Drawn(fb, x, y, 1, 1, pic, after)
  {
    var a := s.Address(x, y);
    forall k | 0 <= k < |fb| ensures after[k] == s.ByteAfter(fb, x, y, 1, 1, pic, k) {
      ByteAddress(s, k);
      if a <= k < a + s.Bpp() {
        AddressBytes(s, x, y, k - a);
      }
    }
  }

  /** A drawing followed by its next pixel, row or other disjoint part is the drawing of both. */
  lemma DrawnTogether(s: Screen, fb: seq<Byte>, mid: seq<Byte>, after: seq<Byte>, x: nat, y: nat, w: nat, h: nat,
                      dx: nat, dy: nat, w': nat, h': nat, wAll: nat, hAll: nat, pic: Picture, part: Picture)
    requires s.Valid() && s.Drawn(fb, x, y, w, h, pic, mid) && s.Drawn(mid, x + dx, y + dy, w', h', part, after)
    requires (dx == w && dy == 0 && h == h' == hAll && wAll == w + w')
          || (dx == 0 && dy == h && w == w' == wAll && hAll == h + h')
    requires forall i, j, b :: part(i, j, b) == pic(i + dx, j + dy, b)
    ensures s.Drawn(fb, x, y, wAll, hAll, pic, after)
  {
    hide Screen.Column, Screen.Row, Screen.Bpp;
    forall k | 0 <= k < |fb| ensures after[k] == s.ByteAfter(fb, x, y, wAll, hAll, pic, k) {
      assert mid[k] == s.ByteAfter(fb, x, y, w, h, pic, k);
    }
  }

  lemma DrawnNothing(s: Screen, fb: seq<Byte>, x: nat, y: nat, w: nat, h: nat, pic: Picture)
    requires s.Valid() && (w == 0 || h == 0)
    ensures s.Drawn(fb, x, y, w, h, pic, fb)
  {
  }

  lemma SamePicture(s: Screen, fb: seq<Byte>, x: nat, y: nat, w: nat, h: nat, p: Picture, q: Picture, after: seq<Byte>)
    requires s.Valid() && s.Drawn(fb, x, y, w, h, p, after)
    requires forall i, j, b :: 0 <= i < w && 0 <= j < h && 0 <= b < s.Bpp() ==> p(i, j, b) == q(i, j, b)
    ensures s.Drawn(fb, x, y, w, h, q, after)
  {
    forall k | 0 <= k < |fb| ensures after[k] == s.ByteAfter(fb, x, y, w, h, q, k) {
    }
  }

  lemma RowsNone(s: Screen, fb: seq<Byte>, x: nat, y: nat, w: nat, pic: Picture)
    requires s.Valid()
    ensures s.RowsDrawn(fb, x, y, w, 0, pic, {}, fb)
  {
  }

  lemma RowsStep(s: Screen, fb: seq<Byte>, mid: seq<Byte>, after: seq<Byte>, x: nat, y: nat, w: nat, row: nat,
                 pic: Picture, part: Picture, rows: set<int>)
    requires s.Valid() && s.RowsDrawn(fb, x, y, w, row, pic, rows, mid) && forall j :: j in rows ==> 0 <= j < row
    requires s.Drawn(mid, x, y + row, w, 1, part, after) && forall i, b :: part(i, 0, b) == pic(i, row, b)
    ensures s.RowsDrawn(fb, x, y, w, row + 1, pic, rows + {row}, after)
  {
    hide Screen.Column, Screen.Row, Screen.Bpp;
    forall k | 0 <= k < |fb|
      ensures after[k] == if s.Row(k) - y in rows + {row} then s.ByteAfter(fb, x, y, w, row + 1, pic, k) else fb[k]
    {
      assert mid[k] == if s.Row(k) - y in rows then s.ByteAfter(fb, x, y, w, row, pic, k) else fb[k];
    }
  }

  lemma RowsSkip(s: Screen, fb: seq<Byte>, mid: seq<Byte>, x: nat, y: nat, w: nat, row: nat, pic: Picture, rows: set<int>)
    requires s.Valid() && s.RowsDrawn(fb, x, y, w, row, pic, rows, mid) && forall j :: j in rows ==> 0 <= j < row
    ensures s.RowsDrawn(fb, x, y, w, row + 1, pic, rows, mid)
  {
    hide Screen.Column, Screen.Row, Screen.Bpp;
  }

  lemma RowsAll(s: Screen, fb: seq<Byte>, x: nat, y: nat, w: nat, h: nat, pic: Picture, rows: set<int>, after: seq<Byte>)
    requires s.Valid() && s.RowsDrawn(fb, x, y, w, h, pic, rows, after) && forall j :: 0 <= j < h ==> j in rows
    ensures s.Drawn(fb, x, y, w, h, pic, after)
  {
    hide Screen.Column, Screen.Row, Screen.Bpp;
  }

  /** The part of a picture that starts at column dx, row dy. */
  function Part(pic: Picture, dx: int, dy: int): Picture { (i: int, j: int, b: int) => pic(i + dx, j + dy, b) }

  /** A one-line picture given pixel by pixel. */
  function Line(pixels: seq<seq<Byte>>): Picture {
    (i: int, j: int, b: int) => if 0 <= i < |pixels| && 0 <= b < |pixels[i]| then pixels[i][b] else 0
  }

  lemma NextAddress(s: Screen, x: nat, y: nat, c: nat, r: nat)
    ensures s.Address(x, y) + s.Bpp() * c == s.Address(x + c, y)
    ensures s.Address(x, y) + s.Bpp() * (r * s.xSize) == s.Address(x, y + r)
  {
    assert s.Bpp() * (s.xSize * y + x) + s.Bpp() * c == s.Bpp() * (s.xSize * y + x + c);
    assert s.xSize * (y + r) == s.xSize * y + r * s.xSize;
    assert s.Bpp() * (s.xSize * y + x) + s.Bpp() * (r * s.xSize) == s.Bpp() * (s.xSize * y + x + r * s.xSize);
  }

  // ---- the driver ----

  /** What DMA2D is set up for: a fill or a conversion, the output format, the pixels skipped after each line,
      and the input format of the layer. */
  datatype Dma2d = Dma2d(convert: bool, output: Format, offLine: nat, input: InputMode)

  class Lcd {
    const reliable: bool    // no DMA2D call fails
    const screen: Screen
    const fb: array<Byte>   // from the start address of the active layer
    var dma: Dma2d

    ghost predicate Valid() {
      screen.Valid() && fb.Length == screen.Size()
    }

    constructor (reliable: bool, screen: Screen)
      requires screen.Valid()
      ensures Valid() && this.screen == screen && this.reliable == reliable && fresh(fb)
    {
      this.reliable, this.screen := reliable, screen;
      fb := new Byte[screen.Size()](_ => 0);
      dma := Dma2d(false, screen.format, 0, InArgb8888);
    }

    method Store(a: nat, bytes: seq<Byte>)
      requires a + |bytes| <= fb.Length
      modifies fb
      ensures fb[..] == old(fb[..a]) + bytes + old(fb[a + |bytes|..])
    {
      var i := 0;
      while i < |bytes|
        invariant i <= |bytes|
        invariant fb[..] == old(fb[..a]) + bytes[..i] + old(fb[a + i..])
      {
        fb[a + i] := bytes[i];
        i := i + 1;
      }
    }

    method HalCall() returns (ok: bool)
      ensures reliable ==> ok
    {
      ok := *;
      ok := ok || reliable;
    }

    /** HAL_DMA2D_Init and HAL_DMA2D_ConfigLayer: on failure the registers hold anything. */
    method Dma2dInit(convert: bool, output: Format, offLine: nat) returns (ok: bool)
      modifies this`dma
      ensures reliable ==> ok
      ensures ok ==> dma == old(dma).(convert := convert, output := output, offLine := offLine)
    {
      ok := HalCall();
      if ok {
        dma := dma.(convert := convert, output := output, offLine := offLine);
      } else {
        dma := *;
      }
    }

    method Dma2dConfigLayer(input: InputMode) returns (ok: bool)
      modifies this`dma
      ensures reliable ==> ok
      ensures ok ==> dma == old(dma).(input := input)
    {
      ok := HalCall();
      if ok {
        dma := dma.(input := input);
      } else {
        dma := *;
      }
    }

    /** Hardware: DMA2D writes consecutive pixels from an address on. */
    method Dma2dLine(dst: nat, pixels: seq<seq<Byte>>, ghost x: nat, ghost y: nat)
      requires Valid() && screen.Inside(x, y, |pixels|, 1) && dst == screen.Address(x, y)
      requires forall i :: 0 <= i < |pixels| ==> |pixels[i]| == screen.Bpp()
      modifies fb
      ensures screen.Drawn(old(fb[..]), x, y, |pixels|, 1, Line(pixels), fb[..])
    {
      ghost var pic := Line(pixels);
      var col := 0;
      DrawnNothing(screen, fb[..], x, y, 0, 1, pic);
      while col < |pixels|
        invariant col <= |pixels|
        invariant screen.Drawn(old(fb[..]), x, y, col, 1, pic, fb[..])
      {
        hide Screen.Drawn, Screen.Address, Screen.Size;
        ghost var mid := fb[..];
        NextAddress(screen, x, y, col, 0);
        AddressBounds(screen, x + col, y);
        Store(dst + screen.Bpp() * col, pixels[col]);
        StoreDraws(screen, mid, x + col, y, pixels[col], Part(pic, col, 0), fb[..]);
        DrawnTogether(screen, old(fb[..]), mid, fb[..], x, y, col, 1, col, 0, 1, 1, col + 1, 1, pic, Part(pic, col, 0));
        col := col + 1;
      }
    }

    /** Hardware: DMA2D in register-to-memory mode fills ySize lines of xSize pixels, skipping some pixels
        after each. */
    method Dma2dFill(dst: nat, xSize: nat, ySize: nat, pix: seq<Byte>, ghost x: nat, ghost y: nat)
      requires !dma.convert && dma.output == screen.format
      requires Valid() && screen.Inside(x, y, xSize, ySize) && dst == screen.Address(x, y) && |pix| == screen.Bpp()
      requires ySize <= 1 || xSize + dma.offLine == screen.xSize
      modifies fb
      ensures screen.Drawn(old(fb[..]), x, y, xSize, ySize, Solid(pix), fb[..])
    {
      var row := 0;
      DrawnNothing(screen, fb[..], x, y, xSize, 0, Solid(pix));
      while row < ySize
        invariant row <= ySize
        invariant screen.Drawn(old(fb[..]), x, y, xSize, row, Solid(pix), fb[..])
      {
        hide Screen.Drawn, Screen.Address, Screen.Size;
        ghost var mid := fb[..];
        NextAddress(screen, x, y, 0, row);
        var pixels := seq(xSize, _ => pix);
        Dma2dLine(dst + screen.Bpp() * (row * (xSize + dma.offLine)), pixels, x, y + row);
        SamePicture(screen, mid, x, y + row, xSize, 1, Line(pixels), Part(Solid(pix), 0, row), fb[..]);
        DrawnTogether(screen, old(fb[..]), mid, fb[..], x, y, xSize, row, 0, row, xSize, 1, xSize, row + 1,
                      Solid(pix), Part(Solid(pix), 0, row));
        row := row + 1;
      }
    }

    /** LL_FillBuffer: the colour goes to ARGB8888 and back through the DMA2D output stage.  When DMA2D cannot be
        initialised or started nothing is drawn and nothing is reported. */
    method FillBuffer(dst: nat, xSize: nat, ySize: nat, offLine: nat, colour: bv32, ghost x: nat, ghost y: nat)
      returns (ghost drawn: bool)
      requires Valid() && screen.Inside(x, y, xSize, ySize) && dst == screen.Address(x, y)
      requires ySize <= 1 || xSize + offLine == screen.xSize
      modifies fb, this`dma
      ensures reliable ==> drawn
      ensures drawn ==> screen.Drawn(old(fb[..]), x, y, xSize, ySize, Solid(Bytes(screen.format, colour)), fb[..])
      ensures !drawn ==> fb[..] == old(fb[..])
    {
      hide Screen.Drawn, Expand, Truncate, Bytes;
      var inputColour := Expand(screen.format, colour);
      FillBytes(screen.format, colour);
      drawn := false;
      var ok := Dma2dInit(false, screen.format, offLine);
      if ok {
        ok := HalCall();
        if ok {
          Dma2dFill(dst, xSize, ySize, Bytes(screen.format, Truncate(screen.format, inputColour)), x, y);
          drawn := true;
        }
      }
    }

    method DrawHLine(x: nat, y: nat, length: nat, colour: bv32) returns (ret: Status, ghost drawn: bool)
      requires Valid() && screen.Inside(x, y, length, 1)
      modifies fb, this`dma
      ensures ret == NoError && (reliable ==> drawn)
      ensures drawn ==> screen.Drawn(old(fb[..]), x, y, length, 1, Solid(Bytes(screen.format, colour)), fb[..])
      ensures !drawn ==> fb[..] == old(fb[..])
    {
      drawn := FillBuffer(screen.Bpp() * (screen.xSize * y + x), length, 1, 0, colour, x, y);
      ret := NoError;
    }

    method DrawVLine(x: nat, y: nat, length: nat, colour: bv32) returns (ret: Status, ghost drawn: bool)
      requires Valid() && screen.Inside(x, y, 1, length)
      modifies fb, this`dma
      ensures ret == NoError && (reliable ==> drawn)
      ensures drawn ==> screen.Drawn(old(fb[..]), x, y, 1, length, Solid(Bytes(screen.format, colour)), fb[..])
      ensures !drawn ==> fb[..] == old(fb[..])
    {
      drawn := FillBuffer(screen.Bpp() * (screen.xSize * y + x), 1, length, screen.xSize - 1, colour, x, y);
      ret := NoError;
    }

    /** Success is reported whether or not the rectangle was filled. */
    method FillRect(x: nat, y: nat, width: nat, height: nat, colour: bv32) returns (ret: Status, ghost drawn: bool)
      requires Valid() && screen.Inside(x, y, width, height)
      modifies fb, this`dma
      ensures ret == NoError && (reliable ==> drawn)
      ensures drawn ==> screen.Drawn(old(fb[..]), x, y, width, height, Solid(Bytes(screen.format, colour)), fb[..])
      ensures !drawn ==> fb[..] == old(fb[..])
    {
      drawn := FillBuffer(screen.Bpp() * (screen.xSize * y + x), width, height, screen.xSize - width, colour, x, y);
      ret := NoError;
    }

    method WritePixel(x: nat, y: nat, colour: bv32)
      requires Valid() && screen.Inside(x, y, 1, 1)
      requires screen.format == Rgb888 ==> x != 0 || y != 0   // the store would precede the framebuffer
      modifies fb
      ensures screen.Drawn(old(fb[..]), screen.WrittenColumn(x), screen.WrittenRow(x, y), 1, 1,
                           Solid(Bytes(screen.format, colour)), fb[..])
    {
      hide Screen.Drawn, Screen.Size, Bytes;
      WrittenAddress(screen, x, y);
      AddressBounds(screen, screen.WrittenColumn(x), screen.WrittenRow(x, y));
      ghost var was, pix := fb[..], Bytes(screen.format, colour);
      if screen.format == Argb8888 {
        Store(4 * (y * screen.xSize + x), Bytes(Argb8888, colour));
      } else if screen.format == Rgb888 {
        Store(3 * (y * screen.xSize + x) - 3, Bytes(Rgb888, colour));
      } else {
        Store(2 * (y * screen.xSize + x), Bytes(screen.format, colour));
      }
      StoreDraws(screen, was, screen.WrittenColumn(x), screen.WrittenRow(x, y), pix, Solid(pix), fb[..]);
    }

    /** LL_ConvertLineToRGB: the DMA2D pixel-format converter turns one bitmap row into screen pixels, or does
        nothing when DMA2D cannot be set up. */
    method ConvertLine(bmp: seq<Byte>, src: nat, dst: nat, width: nat, mode: InputMode, pfc: Converter,
                       ghost x: nat, ghost y: nat)
      returns (ghost drawn: bool)
      requires Valid() && screen.Inside(x, y, width, 1) && dst == screen.Address(x, y)
      requires src + width * mode.Bpp() <= |bmp| && forall m, p :: |pfc(m, p)| == screen.Bpp()
      modifies fb, this`dma
      ensures reliable ==> drawn
      ensures drawn ==> screen.Drawn(old(fb[..]), x, y, width, 1, BitmapRow(bmp, src, width, mode, pfc), fb[..])
      ensures !drawn ==> fb[..] == old(fb[..])
    {
      drawn := false;
      var ok := Dma2dInit(true, screen.format, 0);
      if ok {
        ok := Dma2dConfigLayer(mode);
        if ok {
          ok := HalCall();
          if ok {
            ConvertRow(bmp, src, dst, width, pfc, x, y);
            drawn := true;
          }
        }
      }
    }

    /** Hardware: DMA2D converts one row. */
    method ConvertRow(bmp: seq<Byte>, src: nat, dst: nat, width: nat, pfc: Converter, ghost x: nat, ghost y: nat)
      requires dma.convert && dma.output == screen.format
      requires Valid() && screen.Inside(x, y, width, 1) && dst == screen.Address(x, y)
      requires src + width * dma.input.Bpp() <= |bmp| && forall m, p :: |pfc(m, p)| == screen.Bpp()
      modifies fb
      ensures screen.Drawn(old(fb[..]), x, y, width, 1, BitmapRow(bmp, src, width, dma.input, pfc), fb[..])
    {
      var mode := dma.input;
      forall j | 0 <= j < width ensures j * mode.Bpp() + mode.Bpp() <= width * mode.Bpp() {
        ProductBound(j + 1, mode.Bpp(), width, mode.Bpp());
      }
      var pixels := seq(width, j requires 0 <= j < width => pfc(mode, BitmapPixel(bmp, src, j, mode)));
      ghost var was := fb[..];
      forall i | 0 <= i < |pixels| ensures |pixels[i]| == screen.Bpp() {
        assert pixels[i] == pfc(mode, BitmapPixel(bmp, src, i, mode));
      }
      Dma2dLine(dst, pixels, x, y);
      SamePicture(screen, was, x, y, width, 1, Line(pixels), BitmapRow(bmp, src, width, mode, pfc), fb[..]);
    }

    /** Draws a bottom-up bitmap file: source row height - 1 - i lands on screen row y + i.  Rows whose DMA2D
        transfer could not be set up are left as they were, and success is reported all the same. */
    method DrawBitmap(x: nat, y: nat, bmp: seq<Byte>, pfc: Converter) returns (ret: Status, ghost rows: set<int>)
      requires Valid() && 30 <= |bmp| && forall m, p :: |pfc(m, p)| == screen.Bpp()
      requires var h := Header(bmp);
        && screen.Inside(x, y, h.width, h.height) && h.bitPixel / 8 in {2, 3, 4}
        && h.BlockEnd() <= |bmp|
      modifies fb, this`dma
      ensures ret == NoError
      ensures var h := Header(bmp);
        screen.RowsDrawn(old(fb[..]), x, y, h.width, h.height, BitmapPicture(bmp, h, pfc), rows, fb[..])
      ensures var h := Header(bmp);
        reliable ==> screen.Drawn(old(fb[..]), x, y, h.width, h.height, BitmapPicture(bmp, h, pfc), fb[..])
    {
      hide Screen.Drawn, Screen.RowsDrawn, BitmapPicture, Le32, Header, BmpHeader.BlockEnd, BmpHeader.RowOffset;
      var h := Header(bmp);
      var address := screen.Bpp() * (screen.xSize * y + x);
      var mode := if h.bitPixel / 8 == 4 then InArgb8888 else if h.bitPixel / 8 == 2 then InRgb565 else InRgb888;
      var pbmp: int := h.index + h.width * (h.height - 1) * (h.bitPixel / 8);
      LastRow(h);
      rows := DrawBitmapRows(address, pbmp, mode, x, y, bmp, h, pfc);
      if reliable {
        RowsAll(screen, old(fb[..]), x, y, h.width, h.height, BitmapPicture(bmp, h, pfc), rows, fb[..]);
      }
      ret := NoError;
    }

    /** The row loop: one screen row down, one source row up. */
    method DrawBitmapRows(dst: nat, src: int, mode: InputMode, x: nat, y: nat, bmp: seq<Byte>, h: BmpHeader, pfc: Converter)
      returns (ghost rows: set<int>)
      requires Valid() && screen.Inside(x, y, h.width, h.height) && dst == screen.Address(x, y)
      requires mode == h.Mode() && mode.Bpp() == h.bitPixel / 8 && src == h.RowOffset(0)
      requires h.BlockEnd() <= |bmp| && forall m, p :: |pfc(m, p)| == screen.Bpp()
      modifies fb, this`dma
      ensures screen.RowsDrawn(old(fb[..]), x, y, h.width, h.height, BitmapPicture(bmp, h, pfc), rows, fb[..])
      ensures reliable ==> forall j :: 0 <= j < h.height ==> j in rows
    {
      hide Screen.Drawn, Screen.RowsDrawn, Screen.Address, Screen.Size, BitmapPicture, BitmapRow, Screen.Bpp;
      hide BmpHeader.RowOffset;
      ghost var pic := BitmapPicture(bmp, h, pfc);
      var address, pbmp := dst, src;
      var row := 0;
      rows := {};
      RowsNone(screen, fb[..], x, y, h.width, pic);
      while row < h.height
        invariant row <= h.height && address == screen.Address(x, y + row) && pbmp == h.RowOffset(row)
        invariant screen.RowsDrawn(old(fb[..]), x, y, h.width, row, pic, rows, fb[..])
        invariant forall j :: j in rows ==> 0 <= j < row
        invariant reliable ==> forall j :: 0 <= j < row ==> j in rows
      {
        ghost var mid := fb[..];
        RowInFile(h, row, |bmp|);
        ghost var drawn := ConvertLine(bmp, pbmp, address, h.width, mode, pfc, x, y + row);
        if drawn {
          RowOfPicture(screen, bmp, h, row, pfc);
          SamePicture(screen, mid, x, y + row, h.width, 1, BitmapRow(bmp, pbmp, h.width, mode, pfc), Part(pic, 0, row), fb[..]);
          RowsStep(screen, old(fb[..]), mid, fb[..], x, y, h.width, row, pic, Part(pic, 0, row), rows);
          rows := rows + {row};
        } else {
          RowsSkip(screen, old(fb[..]), mid, x, y, h.width, row, pic, rows);
        }
        AddressStep(screen, x, y + row);
        address := address + screen.xSize * screen.Bpp();
        pbmp := pbmp - h.width * (h.bitPixel / 8);
        row := row + 1;
      }
    }

    method ReadPixel(x: nat, y: nat) returns (colour: bv32)
      requires Valid() && screen.Inside(x, y, 1, 1)
      requires screen.format == Rgb888 ==> screen.Address(x, y) + 4 <= fb.Length   // a 32-bit load
      ensures screen.Address(x, y) + screen.Bpp() <= fb.Length
      ensures colour == FromBytes(screen.format, fb[screen.Address(x, y)..screen.Address(x, y) + screen.Bpp()])
    {
      AddressBounds(screen, x, y);
      var a := screen.Bpp() * (y * screen.xSize + x);
      assert y * screen.xSize == screen.xSize * y;
      assert a == screen.Address(x, y);
      if screen.format == Argb8888 {
        colour := Join4(fb[a], fb[a + 1], fb[a + 2], fb[a + 3]);
      } else if screen.format == Rgb888 {
        colour := Join4(fb[a], fb[a + 1], fb[a + 2], fb[a + 3]) & 0x00FF_FFFF;
        LowJoin(fb[a], fb[a + 1], fb[a + 2], fb[a + 3]);
      } else {
        colour := Join2(fb[a], fb[a + 1]);
      }
    }
  }

  // ---- bitmap files ----

  datatype InputMode = InArgb8888 | InRgb565 | InRgb888 {
    function Bpp(): nat { match this case InArgb8888 => 4 case InRgb565 => 2 case InRgb888 => 3 }
  }

  /** The DMA2D pixel-format converter: the bytes of one source pixel to those of one screen pixel. */
  type Converter = (InputMode, seq<Byte>) -> seq<Byte>

  datatype BmpHeader = BmpHeader(index: nat, width: nat, height: nat, bitPixel: nat) {
    /** The end of the pixel block. */
    function BlockEnd(): nat { index + width * height * (bitPixel / 8) }

    /** The file offset of the source row that lands on screen row `row`. */
    function RowOffset(row: int): int { index + width * (height - 1 - row) * (bitPixel / 8) }

    function Mode(): InputMode {
      if bitPixel / 8 == 4 then InArgb8888 else if bitPixel / 8 == 2 then InRgb565 else InRgb888
    }
  }

  function Le32(b: seq<Byte>, i: nat): nat
    requires i + 4 <= |b|
  {
    b[i] as nat + b[i + 1] as nat * 0x100 + b[i + 2] as nat * 0x1_0000 + b[i + 3] as nat * 0x100_0000
  }

  function Header(bmp: seq<Byte>): BmpHeader
    requires 30 <= |bmp|
  {
    BmpHeader(Le32(bmp, 10), Le32(bmp, 18), Le32(bmp, 22), bmp[28] as nat + bmp[29] as nat * 0x100)
  }

  /** The bytes of source pixel j of the row that starts at offset src. */
  function BitmapPixel(bmp: seq<Byte>, src: nat, j: nat, mode: InputMode): seq<Byte>
    requires src + j * mode.Bpp() + mode.Bpp() <= |bmp|
  {
    bmp[src + j * mode.Bpp()..src + j * mode.Bpp() + mode.Bpp()]
  }

  function BitmapRow(bmp: seq<Byte>, src: nat, width: nat, mode: InputMode, pfc: Converter): Picture {
    (i: int, j: int, b: int) =>
      if 0 <= i < width && src + i * mode.Bpp() + mode.Bpp() <= |bmp|
      then var p := pfc(mode, BitmapPixel(bmp, src, i, mode)); if 0 <= b < |p| then p[b] else 0
      else 0
  }

  /** What the file shows: screen row j holds source row height - 1 - j, converted. */
  function BitmapPicture(bmp: seq<Byte>, h: BmpHeader, pfc: Converter): Picture {
    (i: int, j: int, b: int) =>
      if 0 <= j < h.height
      then RowOffsetPositive(h, j); BitmapRow(bmp, h.RowOffset(j), h.width, h.Mode(), pfc)(i, 0, b)
      else 0
  }

  /** Screen row 0 holds the last row of the file. */
  lemma LastRow(h: BmpHeader)
    ensures h.RowOffset(0) == h.index + h.width * (h.height - 1) * (h.bitPixel / 8)
  {
  }

  lemma RowOffsetPositive(h: BmpHeader, row: int)
    requires 0 <= row < h.height
    ensures h.index <= h.RowOffset(row)
  {
    ProductBound(0, 0, h.width * (h.height - 1 - row), h.bitPixel / 8);
  }

  lemma RowInFile(h: BmpHeader, row: nat, size: nat)
    requires row < h.height && h.BlockEnd() <= size
    ensures 0 <= h.RowOffset(row) && h.RowOffset(row) + h.width * (h.bitPixel / 8) <= size
    ensures h.RowOffset(row) - h.width * (h.bitPixel / 8) == h.RowOffset(row + 1)
  {
    RowTimes(h.width, h.height - 1 - row, h.height, h.bitPixel / 8);
  }

  lemma RowTimes(w: nat, n: nat, height: nat, q: nat)
    requires n + 1 <= height
    ensures w * n * q + w * q <= w * height * q
    ensures w * n * q - w * q == w * (n - 1) * q
  {
    ProductBound(w, n + 1, w, height);
    ProductBound(w * (n + 1), q, w * height, q);
    assert w * (n + 1) == w * n + w && w * (n - 1) == w * n - w;
    assert (w * n + w) * q == w * n * q + w * q;
    assert (w * n - w) * q == w * n * q - w * q;
  }

  lemma RowOfPicture(s: Screen, bmp: seq<Byte>, h: BmpHeader, row: nat, pfc: Converter)
    requires row < h.height && 0 <= h.RowOffset(row)
    ensures forall i, b :: BitmapRow(bmp, h.RowOffset(row), h.width, h.Mode(), pfc)(i, 0, b)
                        == Part(BitmapPicture(bmp, h, pfc), 0, row)(i, 0, b)
  {
  }

  lemma PixelInBlock(h: BmpHeader, i: nat, j: nat)
    requires i < h.width && j < h.height
    ensures h.index <= h.RowOffset(j) + i * (h.bitPixel / 8)
    ensures h.RowOffset(j) + i * (h.bitPixel / 8) + h.bitPixel / 8 <= h.BlockEnd()
  {
    RowInFile(h, j, h.BlockEnd());
    RowOffsetPositive(h, j);
    hide BmpHeader.RowOffset, BmpHeader.BlockEnd;
    ProductBound(i + 1, h.bitPixel / 8, h.width, h.bitPixel / 8);
  }

  /** The picture depends on nothing in the file but the header fields and the pixel block. */
  lemma PictureFromBlockOnly(f: seq<Byte>, g: seq<Byte>, h: BmpHeader, pfc: Converter, i: nat, j: nat, b: int)
    requires i < h.width && j < h.height && h.bitPixel / 8 in {2, 3, 4}
    requires h.BlockEnd() <= |f| && h.BlockEnd() <= |g| && f[h.index..h.BlockEnd()] == g[h.index..h.BlockEnd()]
    ensures BitmapPicture(f, h, pfc)(i, j, b) == BitmapPicture(g, h, pfc)(i, j, b)
  {
    PixelInBlock(h, i, j);
    RowOffsetPositive(h, j);
    assert h.Mode().Bpp() == h.bitPixel / 8;
    var p := h.RowOffset(j) + i * (h.bitPixel / 8);
    SameSlice(f, g, h.index, h.BlockEnd(), p, p + h.bitPixel / 8);
    RowPixelSame(f, g, h, pfc, i, j, b);
  }

  lemma RowPixelSame(f: seq<Byte>, g: seq<Byte>, h: BmpHeader, pfc: Converter, i: nat, j: nat, b: int)
    requires i < h.width && j < h.height && h.index <= h.RowOffset(j) && h.Mode().Bpp() == h.bitPixel / 8
    requires h.RowOffset(j) + i * h.Mode().Bpp() + h.Mode().Bpp() <= |f|
    requires h.RowOffset(j) + i * h.Mode().Bpp() + h.Mode().Bpp() <= |g|
    requires BitmapPixel(f, h.RowOffset(j), i, h.Mode()) == BitmapPixel(g, h.RowOffset(j), i, h.Mode())
    ensures BitmapPicture(f, h, pfc)(i, j, b) == BitmapPicture(g, h, pfc)(i, j, b)
  {
    hide BitmapPixel;
    var src, mode := h.RowOffset(j), h.Mode();
    assert BitmapPicture(f, h, pfc)(i, j, b) == BitmapRow(f, src, h.width, mode, pfc)(i, 0, b);
    assert BitmapPicture(g, h, pfc)(i, j, b) == BitmapRow(g, src, h.width, mode, pfc)(i, 0, b);
  }

  lemma SameSlice(f: seq<Byte>, g: seq<Byte>, lo: nat, hi: nat, a: nat, b: nat)
    requires lo <= a <= b <= hi <= |f| && hi <= |g| && f[lo..hi] == g[lo..hi]
    ensures f[a..b] == g[a..b]
  {
    forall k | a <= k < b ensures f[k] == g[k] {
      assert f[lo..hi][k - lo] == f[k] && g[lo..hi][k - lo] == g[k];
    }
  }

  lemma AddressStep(s: Screen, x: nat, y: nat)
    ensures s.Address(x, y) + s.xSize * s.Bpp() == s.Address(x, y + 1)
  {
    NextAddress(s, x, y, 0, 1);
  }

  lemma LowJoin(a: Byte, b: Byte, c: Byte, d: Byte)
    ensures Join4(a, b, c, d) & 0x00FF_FFFF == Join3(a, b, c)
  {
    SmallJoin3(a, b, c);
    MaskHigh(Join3(a, b, c), d as bv32);
    hide Join3;
  }

  lemma SmallJoin3(a: Byte, b: Byte, c: Byte)
    ensures Join3(a, b, c) & 0x00FF_FFFF == Join3(a, b, c)
  {
    var x, y, z := a as bv32, b as bv32, c as bv32;
    assert (x | (y << 8)) & 0xFFFF == x | (y << 8);
  }

  lemma MaskHigh(x: bv32, d: bv32)
    requires x & 0x00FF_FFFF == x
    ensures (x | (d << 24)) & 0x00FF_FFFF == x
  {
  }

  lemma WrittenAddress(s: Screen, x: nat, y: nat)
    requires s.Valid() && s.Inside(x, y, 1, 1) && (s.format == Rgb888 ==> x != 0 || y != 0)
    ensures s.Inside(s.WrittenColumn(x), s.WrittenRow(x, y), 1, 1)
    ensures s.Address(s.WrittenColumn(x), s.WrittenRow(x, y))
         == s.Bpp() * (y * s.xSize + x) - (if s.format == Rgb888 then 3 else 0)
  {
    if x == 0 && y > 0 {
      assert s.xSize * (y - 1) + s.xSize == s.xSize * y;
    }
  }

  // ---- fills and single pixels ----

  /** A run of pixel writes of one colour: fbs[i + 1] is fbs[i] with the pixel ps[i] drawn. */
  ghost predicate PixelRun(s: Screen, pix: seq<Byte>, ps: seq<(nat, nat)>, fbs: seq<seq<Byte>>)
    requires s.Valid()
  {
    |fbs| == |ps| + 1 && forall i :: 0 <= i < |ps| ==> s.Drawn(fbs[i], ps[i].0, ps[i].1, 1, 1, Solid(pix), fbs[i + 1])
  }

  lemma {:induction false} PixelRunByte(s: Screen, pix: seq<Byte>, ps: seq<(nat, nat)>, fbs: seq<seq<Byte>>, n: nat, k: nat)
    requires s.Valid() && PixelRun(s, pix, ps, fbs) && n <= |ps| && k < |fbs[0]|
    ensures |fbs[n]| == |fbs[0]|
    ensures fbs[n][k] == if (s.Column(k), s.Row(k)) in ps[..n] then Solid(pix)(0, 0, k % s.Bpp()) else fbs[0][k]
  {
    hide Screen.Column, Screen.Row, Screen.Bpp;
    if n > 0 {
      PixelRunByte(s, pix, ps, fbs, n - 1, k);
      assert s.Drawn(fbs[n - 1], ps[n - 1].0, ps[n - 1].1, 1, 1, Solid(pix), fbs[n]);
      assert ps[..n] == ps[..n - 1] + [ps[n - 1]];
    }
  }

  /** Writing the pixels of a rectangle one by one, in any order and with any repetition, changes the
      framebuffer exactly as filling the rectangle does. */
  lemma FillIsEveryPixel(s: Screen, pix: seq<Byte>, x: nat, y: nat, w: nat, h: nat,
                         ps: seq<(nat, nat)>, fbs: seq<seq<Byte>>)
    requires s.Valid() && PixelRun(s, pix, ps, fbs)
    requires forall i, j: nat :: (i, j) in ps <==> x <= i < x + w && y <= j < y + h
    ensures s.Drawn(fbs[0], x, y, w, h, Solid(pix), fbs[|ps|])
  {
    if |fbs[0]| > 0 {
      PixelRunByte(s, pix, ps, fbs, |ps|, 0);
    }
    PixelRunLength(s, pix, ps, fbs, |ps|);
    forall k | 0 <= k < |fbs[0]| ensures fbs[|ps|][k] == s.ByteAfter(fbs[0], x, y, w, h, Solid(pix), k) {
      PixelRunByte(s, pix, ps, fbs, |ps|, k);
      assert ps[..|ps|] == ps;
    }
  }

  lemma {:induction false} PixelRunLength(s: Screen, pix: seq<Byte>, ps: seq<(nat, nat)>, fbs: seq<seq<Byte>>, n: nat)
    requires s.Valid() && PixelRun(s, pix, ps, fbs) && n <= |ps|
    ensures |fbs[n]| == |fbs[0]|
  {
    if n > 0 {
      PixelRunLength(s, pix, ps, fbs, n - 1);
      assert s.Drawn(fbs[n - 1], ps[n - 1].0, ps[n - 1].1, 1, 1, Solid(pix), fbs[n]);
    }
  }

  /** Reading a pixel after it was drawn in a colour gives the bits of the colour the format holds. */
  lemma ReadAfterDraw(s: Screen, fb: seq<Byte>, after: seq<Byte>, x: nat, y: nat, colour: bv32)
    requires s.Valid() && s.Inside(x, y, 1, 1) && |fb| == s.Size()
    requires s.Drawn(fb, x, y, 1, 1, Solid(Bytes(s.format, colour)), after)
    ensures s.Address(x, y) + s.Bpp() <= |after|
    ensures FromBytes(s.format, after[s.Address(x, y)..s.Address(x, y) + s.Bpp()]) == Held(s.format, colour)
  {
    hide FromBytes, Held;
    AddressBounds(s, x, y);
    var pix := Bytes(s.format, colour);
    forall b | 0 <= b < s.Bpp() ensures after[s.Address(x, y) + b] == pix[b] {
      AddressBytes(s, x, y, b);
      assert after[s.Address(x, y) + b] == s.ByteAfter(fb, x, y, 1, 1, Solid(pix), s.Address(x, y) + b);
    }
    assert after[s.Address(x, y)..s.Address(x, y) + s.Bpp()] == pix;
    ReadBack(s.format, colour);
  }

  /** A drawing, as a value. */
  function Draw(s: Screen, fb: seq<Byte>, x: nat, y: nat, w: nat, h: nat, pic: Picture): (r: seq<Byte>)
    requires s.Valid()
    ensures s.Drawn(fb, x, y, w, h, pic, r)
  {
    seq(|fb|, k requires 0 <= k < |fb| => s.ByteAfter(fb, x, y, w, h, pic, k))
  }

  /** Filling one pixel and writing it agree on every framebuffer and colour exactly when the format is not
      RGB888, whose pixel writes land three bytes early. */
  lemma PixelAgreesExactly(s: Screen, x: nat, y: nat)
    requires s.Valid() && s.Inside(x, y, 1, 1) && (s.format == Rgb888 ==> x != 0 || y != 0)
    ensures (forall fb, c :: |fb| == s.Size() ==>
               Draw(s, fb, x, y, 1, 1, Solid(Bytes(s.format, c)))
               == Draw(s, fb, s.WrittenColumn(x), s.WrittenRow(x, y), 1, 1, Solid(Bytes(s.format, c))))
            <==> s.format != Rgb888
  {
    if s.format == Rgb888 {
      var fb := seq(s.Size(), _ => 0 as Byte);
      var pic := Solid(Bytes(Rgb888, 0xFF));
      var a := s.Address(x, y);
      AddressBounds(s, x, y);
      AddressBytes(s, x, y, 0);
      FirstByte();
      hide Bytes, Screen.Column, Screen.Row, Screen.Size;
      var f, g := Draw(s, fb, x, y, 1, 1, pic), Draw(s, fb, s.WrittenColumn(x), s.WrittenRow(x, y), 1, 1, pic);
      assert f[a] == s.ByteAfter(fb, x, y, 1, 1, pic, a);
      assert g[a] == s.ByteAfter(fb, s.WrittenColumn(x), s.WrittenRow(x, y), 1, 1, pic, a);
      assert f[a] != g[a];
    }
  }

  /** Pixels on the screen whose store does not precede the framebuffer. */
  predicate Writable(s: Screen, ps: seq<(nat, nat)>) {
    forall p :: p in ps ==> p.0 < s.xSize && (s.format == Rgb888 ==> p.0 != 0 || p.1 != 0)
  }

  /** The framebuffer after a pixel write for each of some pixels, one after the other. */
  function WriteAll(s: Screen, fb: seq<Byte>, ps: seq<(nat, nat)>, c: bv32): (r: seq<Byte>)
    requires s.Valid() && Writable(s, ps)
    ensures |r| == |fb|
  {
    if ps == [] then fb else
      var p := ps[|ps| - 1];
      Draw(s, WriteAll(s, fb, ps[..|ps| - 1], c), s.WrittenColumn(p.0), s.WrittenRow(p.0, p.1), 1, 1, Solid(Bytes(s.format, c)))
  }

  /** Byte k belongs to a pixel that the writes store. */
  ghost predicate Stored(s: Screen, ps: seq<(nat, nat)>, k: nat)
    requires s.Valid() && Writable(s, ps)
  {
    exists p :: p in ps && s.Column(k) == s.WrittenColumn(p.0) && s.Row(k) == s.WrittenRow(p.0, p.1)
  }

  lemma {:induction false} WriteAllByte(s: Screen, fb: seq<Byte>, ps: seq<(nat, nat)>, c: bv32, k: nat)
    requires s.Valid() && Writable(s, ps) && k < |fb|
    ensures WriteAll(s, fb, ps, c)[k] == if Stored(s, ps, k) then Solid(Bytes(s.format, c))(0, 0, k % s.Bpp()) else fb[k]
  {
    hide Screen.Column, Screen.Row, Screen.Bpp, Screen.WrittenColumn, Screen.WrittenRow, Bytes;
    if ps != [] {
      var rest := ps[..|ps| - 1];
      assert ps == rest + [ps[|ps| - 1]];
      WriteAllByte(s, fb, rest, c, k);
    }
  }

  /** Filling a rectangle and writing its pixels, in any order, agree on every framebuffer and colour exactly when
      the format is not RGB888: there the last pixel of the rectangle is left out. */
  lemma FillAgreesExactly(s: Screen, x: nat, y: nat, w: nat, h: nat, ps: seq<(nat, nat)>)
    requires s.Valid() && s.Inside(x, y, w, h) && w > 0 && h > 0 && Writable(s, ps)
    requires forall i, j: nat :: (i, j) in ps <==> x <= i < x + w && y <= j < y + h
    ensures (forall fb, c :: |fb| == s.Size() ==>
               WriteAll(s, fb, ps, c) == Draw(s, fb, x, y, w, h, Solid(Bytes(s.format, c))))
            <==> s.format != Rgb888
  {
    if s.format == Rgb888 {
      LastPixelLeftOut(s, x, y, w, h, ps);
    } else {
      forall fb, c | |fb| == s.Size() ensures WriteAll(s, fb, ps, c) == Draw(s, fb, x, y, w, h, Solid(Bytes(s.format, c))) {
        WritesFill(s, fb, x, y, w, h, ps, c);
      }
    }
  }

  lemma WritesFill(s: Screen, fb: seq<Byte>, x: nat, y: nat, w: nat, h: nat, ps: seq<(nat, nat)>, c: bv32)
    requires s.Valid() && Writable(s, ps) && s.format != Rgb888
    requires forall i, j: nat :: (i, j) in ps <==> x <= i < x + w && y <= j < y + h
    ensures WriteAll(s, fb, ps, c) == Draw(s, fb, x, y, w, h, Solid(Bytes(s.format, c)))
  {
    var r, d := WriteAll(s, fb, ps, c), Draw(s, fb, x, y, w, h, Solid(Bytes(s.format, c)));
    hide WriteAll, Bytes, Draw, Screen.Column, Screen.Row;
    forall k | 0 <= k < |fb| ensures r[k] == d[k] {
      WriteAllByte(s, fb, ps, c, k);
      assert d[k] == s.ByteAfter(fb, x, y, w, h, Solid(Bytes(s.format, c)), k);
      if (s.Column(k), s.Row(k)) in ps {
        assert Stored(s, ps, k);
      }
    }
  }

  lemma LastPixelLeftOut(s: Screen, x: nat, y: nat, w: nat, h: nat, ps: seq<(nat, nat)>)
    requires s.Valid() && s.Inside(x, y, w, h) && w > 0 && h > 0 && Writable(s, ps) && s.format == Rgb888
    requires forall i, j: nat :: (i, j) in ps <==> x <= i < x + w && y <= j < y + h
    ensures exists fb, c :: |fb| == s.Size() && WriteAll(s, fb, ps, c) != Draw(s, fb, x, y, w, h, Solid(Bytes(s.format, c)))
  {
    var fb := seq(s.Size(), _ => 0 as Byte);
    var a, pic := s.Address(x + w - 1, y + h - 1), Solid(Bytes(Rgb888, 0xFF));
    AddressBounds(s, x + w - 1, y + h - 1);
    AddressBytes(s, x + w - 1, y + h - 1, 0);
    FirstByte();
    var f, g := Draw(s, fb, x, y, w, h, pic), WriteAll(s, fb, ps, 0xFF);
    hide WriteAll, Bytes, Screen.Column, Screen.Row, Screen.Size;
    WriteAllByte(s, fb, ps, 0xFF, a);
    assert f[a] == s.ByteAfter(fb, x, y, w, h, pic, a);
    assert !Stored(s, ps, a);
    assert f[a] != g[a];
  }

  lemma FirstByte()
    ensures Bytes(Rgb888, 0xFF)[0] == 0xFF
  {
  }
}
