/** Bitmap files built from rows of pixels, and where DrawBitmap puts each pixel of them. */
module LcdBitmap {
  import opened Arithmetic
  import opened LcdColour
  import opened LcdDraw
  import opened Words

  // ---- a file built from its rows ----

  /** Rows of pixels from the bottom up, in the bytes of a mode. */
  datatype Image = Image(mode: InputMode, width: nat, rows: seq<seq<seq<Byte>>>) {
    ghost predicate Valid() {
      forall r :: r in rows ==> |r| == width && forall p :: p in r ==> |p| == mode.Bpp()
    }
    function Bpp(): nat { mode.Bpp() }
    /** The bytes of a row. */
    function Line(): nat { width * Bpp() }
    /** The offset of the pixel in column i of row `row`, counted from the bottom. */
    function PixelAt(i: nat, row: nat): nat { row * Line() + i * Bpp() }
    /** The pixel in column i of row j, counted from the top. */
    function Pixel(i: nat, j: nat): seq<Byte>
      requires Valid() && i < width && j < |rows|
    {
      rows[|rows| - 1 - j][i]
    }
  }

  /** Four bytes that hold a number, the least significant first. */
  predicate Holds(b: seq<Byte>, n: nat) {
    |b| == 4 && n == b[0] as nat + 256 * (b[1] as nat + 256 * (b[2] as nat + 256 * (b[3] as nat)))
  }

  function Joined(parts: seq<seq<Byte>>): seq<Byte> {
    if parts == [] then [] else Joined(parts[..|parts| - 1]) + parts[|parts| - 1]
  }

  function RowBytes(rows: seq<seq<seq<Byte>>>): (r: seq<seq<Byte>>)
    ensures |r| == |rows|
  {
    seq(|rows|, j requires 0 <= j < |rows| => Joined(rows[j]))
  }

  /** The bytes before the pixels: the offset of the pixels at 10, the width at 18, the height at 22, the bits
      of a pixel at 28, and anything between. */
  datatype Fields = Fields(start: seq<Byte>, index: seq<Byte>, afterIndex: seq<Byte>, width: seq<Byte>,
                           height: seq<Byte>, afterHeight: seq<Byte>, depth: seq<Byte>, afterDepth: seq<Byte>) {
    predicate Describe(img: Image) {
      && |start| == 10 && |afterIndex| == 4 && |afterHeight| == 2 && |depth| == 2
      && Holds(index, 30 + |afterDepth|) && Holds(width, img.width) && Holds(height, |img.rows|)
      && depth[0] as nat + 256 * (depth[1] as nat) == 8 * img.mode.Bpp()
    }
    function Bytes(): seq<Byte> { start + index + afterIndex + width + height + afterHeight + depth + afterDepth }
  }

  function File(img: Image, f: Fields): seq<Byte> { f.Bytes() + Joined(RowBytes(img.rows)) }

  // ---- reading it back ----

  lemma FieldValue(b: seq<Byte>, at: nat, field: seq<Byte>, n: nat)
    requires at + 4 <= |b| && b[at..at + 4] == field && Holds(field, n)
    ensures Le32(b, at) == n
  {
    assert b[at] == field[0] && b[at + 1] == field[1] && b[at + 2] == field[2] && b[at + 3] == field[3];
  }

  /** The driver reads from such a file what it was built from. */
  lemma HeaderOfFile(img: Image, f: Fields)
    requires f.Describe(img)
    ensures 30 <= |f.Bytes()| <= |File(img, f)|
    ensures Header(File(img, f)) == BmpHeader(|f.Bytes()|, img.width, |img.rows|, 8 * img.mode.Bpp())
  {
    hide Joined, Le32, InputMode.Bpp;
    var b := File(img, f);
    assert b[10..14] == f.index && b[18..22] == f.width && b[22..26] == f.height;
    assert b[28] == f.depth[0] && b[29] == f.depth[1];
    hide Holds;
    FieldValue(b, 10, f.index, |f.Bytes()|);
    FieldValue(b, 18, f.width, img.width);
    FieldValue(b, 22, f.height, |img.rows|);
  }

  lemma {:induction false} JoinedLength(parts: seq<seq<Byte>>, n: nat)
    requires forall i :: 0 <= i < |parts| ==> |parts[i]| == n
    ensures |Joined(parts)| == |parts| * n
  {
    if parts != [] {
      JoinedLength(parts[..|parts| - 1], n);
      assert |parts| * n == (|parts| - 1) * n + n;
    }
  }

  /** Part i of some parts of equal length. */
  lemma {:induction false} JoinedPart(parts: seq<seq<Byte>>, n: nat, i: nat)
    requires i < |parts| && forall i :: 0 <= i < |parts| ==> |parts[i]| == n
    ensures i * n + n <= |Joined(parts)| && Joined(parts)[i * n..i * n + n] == parts[i]
  {
    var rest := parts[..|parts| - 1];
    JoinedLength(rest, n);
    JoinedLength(parts, n);
    ProductBound(i + 1, n, |parts|, n);
    assert (i + 1) * n == i * n + n;
    if i < |rest| {
      JoinedPart(rest, n, i);
    }
  }

  lemma PixelInRow(img: Image, i: nat, row: nat)
    requires img.Valid() && i < img.width && row < |img.rows|
    ensures |Joined(img.rows[row])| == img.Line()
    ensures i * img.Bpp() + img.Bpp() <= img.Line()
    ensures Joined(img.rows[row])[i * img.Bpp()..i * img.Bpp() + img.Bpp()] == img.rows[row][i]
  {
    hide InputMode.Bpp, Joined;
    assert img.rows[row] in img.rows;
    JoinedLength(img.rows[row], img.mode.Bpp());
    JoinedPart(img.rows[row], img.mode.Bpp(), i);
  }

  lemma LinesJoined(img: Image)
    requires img.Valid() && (img.width == 0 ==> img.rows == [])
    ensures forall r :: 0 <= r < |img.rows| ==> |RowBytes(img.rows)[r]| == img.Line()
    ensures |Joined(RowBytes(img.rows))| == |img.rows| * img.Line()
  {
    hide Joined, Image.Line, Image.Bpp, InputMode.Bpp;
    var parts := RowBytes(img.rows);
    forall r | 0 <= r < |parts| ensures |parts[r]| == img.Line() {
      PixelInRow(img, 0, r);
    }
    JoinedLength(parts, img.Line());
  }

  lemma {:induction false} PixelInBlockAt(img: Image, i: nat, row: nat)
    requires img.Valid() && i < img.width && row < |img.rows|
    ensures img.PixelAt(i, row) + img.Bpp() <= |Joined(RowBytes(img.rows))|
    ensures Joined(RowBytes(img.rows))[img.PixelAt(i, row)..img.PixelAt(i, row) + img.Bpp()] == img.rows[row][i]
  {
    hide Joined, Image.Line, Image.Bpp, InputMode.Bpp;
    var n, parts := img.Bpp(), RowBytes(img.rows);
    PixelInRow(img, i, row);
    LinesJoined(img);
    PartOfPart(parts, img.Line(), row, i * n, n);
    hide Image.Valid;
  }

  lemma PartOfPart(parts: seq<seq<Byte>>, line: nat, row: nat, from: nat, n: nat)
    requires row < |parts| && from + n <= line && forall r :: 0 <= r < |parts| ==> |parts[r]| == line
    ensures row * line + from + n <= |Joined(parts)|
    ensures Joined(parts)[row * line + from..row * line + from + n] == parts[row][from..from + n]
  {
    hide Joined;
    JoinedPart(parts, line, row);
    SliceOfSlice(Joined(parts), row * line, parts[row], from, n);
  }

  lemma SliceOfSlice(b: seq<Byte>, at: nat, part: seq<Byte>, from: nat, n: nat)
    requires at + |part| <= |b| && b[at..at + |part|] == part && from + n <= |part|
    ensures b[at + from..at + from + n] == part[from..from + n]
  {
    var x, y, all := b[at + from..at + from + n], part[from..from + n], b[at..at + |part|];
    forall m | 0 <= m < n ensures x[m] == y[m] {
      assert all[from + m] == b[at + from + m];
    }
  }

  /** The driver's offset of a pixel is where the file has it. */
  lemma PixelOffset(img: Image, h: BmpHeader, i: nat, j: nat)
    requires h.width == img.width && h.height == |img.rows| && h.bitPixel == 8 * img.mode.Bpp() && j < |img.rows|
    ensures h.RowOffset(j) + i * img.Bpp() == h.index + img.PixelAt(i, |img.rows| - 1 - j)
    ensures h.BlockEnd() == h.index + |img.rows| * img.Line()
    ensures h.Mode() == img.mode && h.bitPixel / 8 == img.Bpp()
  {
    var w, n, row := img.width, img.Bpp(), |img.rows| - 1 - j;
    assert h.bitPixel / 8 == n;
    hide InputMode.Bpp, Image.Bpp;
    assert w * row * n == row * (w * n) && w * |img.rows| * n == |img.rows| * (w * n);
  }

  lemma InBlock(head: seq<Byte>, block: seq<Byte>, at: nat, n: nat)
    requires at + n <= |block|
    ensures (head + block)[|head| + at..|head| + at + n] == block[at..at + n]
  {
  }

  /** Pixel i of screen row j, as the driver finds it in the file. */
  lemma PixelOfFile(img: Image, f: Fields, i: nat, j: nat)
    requires img.Valid() && f.Describe(img)
    requires i < img.width && j < |img.rows|
    ensures 30 <= |File(img, f)|
    ensures var h := Header(File(img, f));
      && h.width == img.width && h.height == |img.rows| && h.Mode() == img.mode && h.bitPixel / 8 == img.mode.Bpp()
      && h.BlockEnd() == |File(img, f)|
      && 0 <= h.RowOffset(j) && h.RowOffset(j) + i * img.mode.Bpp() + img.mode.Bpp() <= |File(img, f)|
      && BitmapPixel(File(img, f), h.RowOffset(j), i, img.mode) == img.Pixel(i, j)
  {
    hide Fields.Describe, Fields.Bytes, Header, Joined, RowBytes, InputMode.Bpp, Holds;
    hide Image.PixelAt, Image.Line, BmpHeader.RowOffset, BmpHeader.BlockEnd, BmpHeader.Mode;
    HeaderOfFile(img, f);
    var h, row := Header(File(img, f)), |img.rows| - 1 - j;
    PixelInBlockAt(img, i, row);
    LinesJoined(img);
    PixelOffset(img, h, i, j);
    RowOffsetPositive(h, j);
    InBlock(f.Bytes(), Joined(RowBytes(img.rows)), img.PixelAt(i, row), img.Bpp());
  }

  lemma PictureOfFile(img: Image, f: Fields, pfc: Converter, i: nat, j: nat, b: nat)
    requires img.Valid() && f.Describe(img) && i < img.width && j < |img.rows|
    requires b < |pfc(img.mode, img.Pixel(i, j))|
    ensures 30 <= |File(img, f)|
    ensures BitmapPicture(File(img, f), Header(File(img, f)), pfc)(i, j, b) == pfc(img.mode, img.Pixel(i, j))[b]
  {
    PixelOfFile(img, f, i, j);
    hide File, Header, BitmapPixel, BmpHeader.RowOffset, BmpHeader.Mode, BmpHeader.BlockEnd, Image.Pixel, InputMode.Bpp;
    hide Fields.Describe, Image.Valid;
    var file := File(img, f);
    var h := Header(file);
    assert BitmapPicture(file, h, pfc)(i, j, b) == BitmapRow(file, h.RowOffset(j), img.width, img.mode, pfc)(i, 0, b);
  }

  /** What DrawBitmap's contract says of a file means: screen pixel (x + i, y + j) is the pixel in column i of
      the image's row j from the top, converted. */
  lemma FileShown(s: Screen, fb: seq<Byte>, after: seq<Byte>, x: nat, y: nat, img: Image, f: Fields, pfc: Converter,
                  i: nat, j: nat, b: nat)
    requires img.Valid() && f.Describe(img) && 30 <= |File(img, f)|
    requires s.Valid() && s.Inside(x, y, img.width, |img.rows|) && |fb| == s.Size()
    requires s.Drawn(fb, x, y, img.width, |img.rows|, BitmapPicture(File(img, f), Header(File(img, f)), pfc), after)
    requires i < img.width && j < |img.rows| && b < s.Bpp() == |pfc(img.mode, img.Pixel(i, j))|
    ensures s.Address(x + i, y + j) + b < |after|
    ensures after[s.Address(x + i, y + j) + b] == pfc(img.mode, img.Pixel(i, j))[b]
  {
    PictureOfFile(img, f, pfc, i, j, b);
    var pic := BitmapPicture(File(img, f), Header(File(img, f)), pfc);
    PixelShown(s, fb, after, x, y, img.width, |img.rows|, pic, i, j, b);
  }

  /** A byte of a pixel of a picture that was drawn. */
  lemma PixelShown(s: Screen, fb: seq<Byte>, after: seq<Byte>, x: nat, y: nat, w: nat, h: nat, pic: Picture,
                   i: nat, j: nat, b: nat)
    requires s.Valid() && s.Inside(x, y, w, h) && |fb| == s.Size() && s.Drawn(fb, x, y, w, h, pic, after)
    requires i < w && j < h && b < s.Bpp()
    ensures s.Address(x + i, y + j) + b < |after| && after[s.Address(x + i, y + j) + b] == pic(i, j, b)
  {
    AddressBounds(s, x + i, y + j);
    AddressBytes(s, x + i, y + j, b);
    hide Screen.Address, Screen.Column, Screen.Row, Screen.Size, Screen.Bpp;
    var k := s.Address(x + i, y + j) + b;
    assert after[k] == s.ByteAfter(fb, x, y, w, h, pic, k);
  }
}
