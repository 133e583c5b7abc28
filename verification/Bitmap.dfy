/** The 24-bit BMP files of the lab-3 transformer: writing an image, reading a file. */
module Bitmap {
  import opened Pictures
  import opened Words

  const UINT16 := 0x1_0000

  const HEADER_SIZE := 54
  const SIGNATURE := 0x4D42
  const INFO_HEADER := 40
  const PLANES := 1
  const BIT_COUNT := 24
  const NO_COMPRESSION := 0

  // ----- Sizes -----

  /** calculate_padding */
  function Padding(width: nat): nat { (4 - width * 3 % 4) % 4 }

  /** Fewer than four bytes fill a row up to a multiple of four; none when the width already is one. */
  lemma {:induction false} PaddingAligns(width: nat)
    ensures Padding(width) < 4 && (3 * width + Padding(width)) % 4 == 0
    ensures Padding(width) == 0 <==> width % 4 == 0
  {
    var q, r := width / 4, width % 4;
    FourTimes(3 * q, 3 * r);
    assert width * 3 % 4 == 3 * r % 4;
    FourTimes(3 * q, 3 * r + (4 - 3 * r % 4) % 4);
  }

  lemma {:induction false} FourTimes(q: nat, r: nat)
    ensures (4 * q + r) % 4 == r % 4
  {
  }

  /** Bytes of a row in the file. */
  function Stride(width: nat): nat { 3 * width + Padding(width) }

  lemma {:induction false} StrideIs(width: nat)
    ensures Stride(width) == 3 * width + Padding(width)
  {
  }

  /** calculate_image_size, in 32-bit arithmetic */
  function ImageSize(width: nat, height: nat): nat { Stride(width) * height % UINT32 }

  // ----- The header as bytes -----

  datatype Header = Header(
    bfType: nat, bfileSize: nat, bfReserved: nat, bOffBits: nat, biSize: nat, biWidth: nat, biHeight: nat,
    biPlanes: nat, biBitCount: nat, biCompression: nat, biSizeImage: nat, biXPelsPerMeter: nat,
    biYPelsPerMeter: nat, biClrUsed: nat, biClrImportant: nat)

  predicate Fits(h: Header) {
    && h.bfType < UINT16 && h.bfileSize < UINT32 && h.bfReserved < UINT32 && h.bOffBits < UINT32
    && h.biSize < UINT32 && h.biWidth < UINT32 && h.biHeight < UINT32 && h.biPlanes < UINT16 && h.biBitCount < UINT16
    && h.biCompression < UINT32 && h.biSizeImage < UINT32 && h.biXPelsPerMeter < UINT32
    && h.biYPelsPerMeter < UINT32 && h.biClrUsed < UINT32 && h.biClrImportant < UINT32
  }

  /** fill_header */
  function FillHeader(width: nat, height: nat): (h: Header)
    requires width < UINT32 && height < UINT32
    ensures Fits(h)
  {
    var size := ImageSize(width, height);
    Header(SIGNATURE, (HEADER_SIZE + size) % UINT32, 0, HEADER_SIZE, INFO_HEADER, width, height,
           PLANES, BIT_COUNT, NO_COMPRESSION, size, 0, 0, 0, 0)
  }

  function Le16(v: nat): (s: seq<Byte>)
    requires v < UINT16
    ensures |s| == 2
  {
    [v % 256, v / 256]
  }

  function Le32(v: nat): (s: seq<Byte>)
    requires v < UINT32
    ensures |s| == 4
  {
    [v % 256, v / 256 % 256, v / 65536 % 256, v / 16777216]
  }

  function From16(s: seq<Byte>, at: nat): nat
    requires at + 2 <= |s|
  {
    var a: nat, b: nat := s[at], s[at + 1];
    a + 256 * b
  }

  function From32(s: seq<Byte>, at: nat): nat
    requires at + 4 <= |s|
  {
    var a: nat, b: nat, c: nat, d: nat := s[at], s[at + 1], s[at + 2], s[at + 3];
    a + 256 * b + 65536 * c + 16777216 * d
  }

  /** The packed structure as it lies in memory. */
  function HeaderBytes(h: Header): (s: seq<Byte>)
    requires Fits(h)
    ensures |s| == HEADER_SIZE
  {
    Le16(h.bfType) + Le32(h.bfileSize) + Le32(h.bfReserved) + Le32(h.bOffBits) + Le32(h.biSize) + Le32(h.biWidth)
    + Le32(h.biHeight) + Le16(h.biPlanes) + Le16(h.biBitCount) + Le32(h.biCompression) + Le32(h.biSizeImage)
    + Le32(h.biXPelsPerMeter) + Le32(h.biYPelsPerMeter) + Le32(h.biClrUsed) + Le32(h.biClrImportant)
  }

  function ParseHeader(s: seq<Byte>): (h: Header)
    requires |s| >= HEADER_SIZE
    ensures Fits(h)
  {
    Header(From16(s, 0), From32(s, 2), From32(s, 6), From32(s, 10), From32(s, 14), From32(s, 18), From32(s, 22),
           From16(s, 26), From16(s, 28), From32(s, 30), From32(s, 34), From32(s, 38), From32(s, 42), From32(s, 46),
           From32(s, 50))
  }

  lemma {:induction false} Le32RoundTrip(v: nat)
    requires v < UINT32
    ensures v % 256 + 256 * (v / 256 % 256) + 65536 * (v / 65536 % 256) + 16777216 * (v / 16777216) == v
  {
  }

  lemma {:induction false} HeaderRoundTrip(h: Header, rest: seq<Byte>)
    requires Fits(h)
    ensures ParseHeader(HeaderBytes(h) + rest) == h
  {
    var s := HeaderBytes(h) + rest;
    Le32RoundTrip(h.bfileSize);
    Le32RoundTrip(h.bfReserved);
    Le32RoundTrip(h.bOffBits);
    Le32RoundTrip(h.biSize);
    Le32RoundTrip(h.biWidth);
    Le32RoundTrip(h.biHeight);
    Le32RoundTrip(h.biCompression);
    Le32RoundTrip(h.biSizeImage);
    Le32RoundTrip(h.biXPelsPerMeter);
    Le32RoundTrip(h.biYPelsPerMeter);
    Le32RoundTrip(h.biClrUsed);
    Le32RoundTrip(h.biClrImportant);
  }

  // ----- Pixel rows as bytes -----

  function PixelBytes(ps: seq<Pixel>): (s: seq<Byte>)
    ensures |s| == 3 * |ps|
  {
    if ps == [] then [] else [ps[0].b, ps[0].g, ps[0].r] + PixelBytes(ps[1..])
  }

  function PixelsOf(s: seq<Byte>): (ps: seq<Pixel>)
    ensures |ps| == |s| / 3
  {
    if |s| < 3 then [] else [Pixel(s[0], s[1], s[2])] + PixelsOf(s[3..])
  }

  lemma {:induction false} PixelsRoundTrip(ps: seq<Pixel>)
    ensures PixelsOf(PixelBytes(ps)) == ps
  {
    if ps != [] {
      PixelsRoundTrip(ps[1..]);
      assert PixelBytes(ps)[3..] == PixelBytes(ps[1..]);
    }
  }

  function Zeros(n: nat): (s: seq<Byte>)
    ensures |s| == n
  {
    seq(n, _ => 0)
  }

  /** The rows of an image in the file, each padded. */
  function Rows(ps: seq<Pixel>, w: nat, h: nat): (s: seq<Byte>)
    requires Boxed(ps, w, h)
    decreases h
  {
    if h == 0 then []
    else
      assert w * h == w + w * (h - 1);
      PixelBytes(ps[..w]) + Zeros(Padding(w)) + Rows(ps[w..], w, h - 1)
  }

  lemma {:induction false} OneMore(a: nat, h: nat)
    ensures a * h == a + a * (h - 1)
  {
  }

  lemma {:induction false} RowsLength(ps: seq<Pixel>, w: nat, h: nat)
    requires Boxed(ps, w, h)
    ensures |Rows(ps, w, h)| == Stride(w) * h
    decreases h
  {
    hide PixelBytes, Zeros, Stride, Padding;
    StrideIs(w);
    if h > 0 {
      assert w * h == w + w * (h - 1);
      RowsLength(ps[w..], w, h - 1);
      OneMore(Stride(w), h);
    }
  }

  datatype Decoded = Short | Pixels(pixels: seq<Pixel>)

  /** Reading h rows from offset at on, as fread and fseek do: a row of no bytes, or one that is cut off, fails. */
  function ReadRows(s: seq<Byte>, at: nat, w: nat, h: nat): (d: Decoded)
    decreases h
  {
    if h == 0 then Pixels([])
    else if w == 0 || at + 3 * w > |s| then Short
    else
      var rest := ReadRows(s, at + Stride(w), w, h - 1);
      if rest.Short? then Short else Pixels(PixelsOf(s[at..at + 3 * w]) + rest.pixels)
  }

  lemma {:induction false} FirstItem(before: seq<Byte>, row: seq<Byte>, pad: seq<Byte>, rest: seq<Byte>)
    ensures var s := before + (row + pad + rest);
      s == before + (row + pad) + rest && s[|before|..|before| + |row|] == row
  {
  }

  lemma {:induction false} ReadOfRows(before: seq<Byte>, ps: seq<Pixel>, w: nat, h: nat)
    requires Boxed(ps, w, h) && (h > 0 ==> w > 0)
    ensures ReadRows(before + Rows(ps, w, h), |before|, w, h) == Pixels(ps)
    decreases h
  {
    hide PixelBytes, PixelsOf, Padding;
    if h > 0 {
      assert w * h == w + w * (h - 1);
      var row, rest := PixelBytes(ps[..w]), Rows(ps[w..], w, h - 1);
      var s := before + Rows(ps, w, h);
      var next := before + (row + Zeros(Padding(w)));
      FirstItem(before, row, Zeros(Padding(w)), rest);
      assert |next| == |before| + Stride(w) && s == next + rest;
      PixelsRoundTrip(ps[..w]);
      ReadOfRows(next, ps[w..], w, h - 1);
      assert ps[..w] + ps[w..] == ps;
    }
  }

  // ----- Files -----

  /** A stdio stream on a byte sequence: no device error ever happens, but items of no bytes count as none. */
  class File {
    var bytes: seq<Byte>
    var pos: nat

    constructor (bytes: seq<Byte>)
      ensures this.bytes == bytes && pos == 0
    {
      this.bytes := bytes;
      pos := 0;
    }

    /** fwrite of one item at the end of the file */
    method Write(item: seq<Byte>) returns (count: nat)
      requires pos == |bytes|
      modifies this
      ensures bytes == old(bytes) + item && pos == |bytes|
      ensures count == if item == [] then 0 else 1
    {
      bytes := bytes + item;
      pos := |bytes|;
      count := if item == [] then 0 else 1;
    }

    /** fread of one item of size bytes */
    method Read(size: nat) returns (count: nat, item: seq<Byte>)
      modifies this`pos
      ensures size > 0 && old(pos) + size <= |bytes| ==>
        count == 1 && item == bytes[old(pos)..old(pos) + size] && pos == old(pos) + size
      ensures size == 0 ==> count == 0 && pos == old(pos)
      ensures !(size > 0 && old(pos) + size <= |bytes|) ==> count == 0 && item == []
    {
      count, item := 0, [];
      if size > 0 {
        if pos + size <= |bytes| {
          count, item := 1, bytes[pos..pos + size];
          pos := pos + size;
        } else if pos < |bytes| {
          pos := |bytes|;
        }
      }
    }

    /** fseek with SEEK_SET or SEEK_CUR, to any place at or after the start */
    method Seek(to: nat)
      modifies this`pos
      ensures pos == to
    {
      pos := to;
    }
  }

  // ----- to_bmp -----

  datatype WriteStatus = WriteOk | WriteHeaderError | WriteError | WriteFileNull

  /** create_padding_arr */
  method CreatePadding(n: nat) returns (padding: array<Byte>)
    ensures fresh(padding) && padding[..] == Zeros(n)
  {
    padding := new Byte[n](_ => 0);
    for i := 0 to n
      invariant forall k :: 0 <= k < i ==> padding[k] == 0
    {
      padding[i] := 0;
    }
  }

  /** The file to_bmp leaves when it reports success. */
  function FileOf(p: Picture): seq<Byte>
    requires Sized(p) && p.width < UINT32 && p.height < UINT32
  {
    HeaderBytes(FillHeader(p.width, p.height)) + Rows(p.pixels, p.width, p.height)
  }

  /** to_bmp on a new file.  It reports success exactly when there are no rows or the rows need padding: a padding of
      zero bytes counts as a failed write.  A failure leaves the header and the first row's pixels. */
  method ToBmp(out: File?, img: Image?) returns (status: WriteStatus)
    requires out != null ==> out.bytes == [] && out.pos == 0
    requires img != null ==> img.Valid()
    modifies out
    ensures status == WriteFileNull <==> out == null || img == null
    ensures out != null && img != null ==>
      && (status == WriteOk <==> img.height == 0 || img.width % 4 != 0)
      && (status == WriteOk ==> out.bytes == FileOf(img.Value()))
      && (status != WriteOk ==> status == WriteError)
      && (status != WriteOk ==>
            out.bytes == HeaderBytes(FillHeader(img.width, img.height)) + PixelBytes(FirstRow(img.Value())))
  {
    if out == null || img == null { return WriteFileNull; }
    hide HeaderBytes, FillHeader, PixelBytes, Rows, FirstRow, Fits, Boxed;
    var header := FillHeader(img.width, img.height);
    var count := out.Write(HeaderBytes(header));
    NothingInFront(HeaderBytes(header));
    if count != 1 { return WriteHeaderError; }
    HeaderOffset(img.width, img.height);
    out.Seek(header.bOffBits);
    var ok := WriteRows(out, img);
    return if ok then WriteOk else WriteError;
  }

  /** The row loop of to_bmp. */
  method WriteRows(out: File, img: Image) returns (ok: bool)
    requires img.Valid() && out.pos == |out.bytes|
    modifies out
    ensures ok <==> img.height == 0 || img.width % 4 != 0
    ensures out.bytes == old(out.bytes) +
      (if ok then Rows(img.data[..], img.width, img.height) else PixelBytes(FirstRow(img.Value())))
  {
    hide PixelBytes, Padding, Zeros, Progress, Rows, FirstRow;
    var w, h := img.width, img.height;
    ghost var start, ps := out.bytes, img.data[..];
    var n := Padding(w);
    PaddingAligns(w);
    var padding := CreatePadding(n);
    ProgressStart(start, ps, w, h);
    for i := 0 to h
      invariant out.pos == |out.bytes| && padding[..] == Zeros(n) && img.data[..] == ps
      invariant i > 0 ==> n > 0
      invariant Progress(start, ps, w, h, i, out.bytes)
      invariant i == 0 ==> out.bytes == start
    {
      ProgressStep(start, ps, w, h, i, out.bytes);
      ghost var before := out.bytes;
      var row := img.data[w * i..w * i + w];
      RowBytes(ps[w * i..w * i + w], w);
      if i == 0 { FirstRowIs(img.Value()); }
      var count := out.Write(PixelBytes(row));
      if count != 1 { return false; }
      ghost var between := out.bytes;
      count := out.Write(padding[..]);
      if count != 1 {
        assert between + [] == between;
        return false;
      }
      Joined(before, PixelBytes(row), Zeros(n));
    }
    ProgressEnd(start, ps, w, h, out.bytes);
    return true;
  }

  lemma {:induction false} NothingInFront(s: seq<Byte>)
    ensures [] + s == s
  {
  }

  lemma {:induction false} HeaderOffset(w: nat, h: nat)
    requires w < UINT32 && h < UINT32
    ensures FillHeader(w, h).bOffBits == HEADER_SIZE
  {
  }

  lemma {:induction false} Joined(a: seq<Byte>, b: seq<Byte>, c: seq<Byte>)
    ensures a + b + c == a + (b + c)
  {
  }

  lemma {:induction false} RowBytes(row: seq<Pixel>, w: nat)
    requires |row| == w
    ensures PixelBytes(row) == [] <==> w == 0
    ensures Zeros(Padding(w)) == [] <==> Padding(w) == 0
    ensures w == 0 ==> Padding(w) == 0
  {
  }

  /** The file after i rows. */
  ghost predicate Progress(start: seq<Byte>, ps: seq<Pixel>, w: nat, h: nat, i: nat, bytes: seq<Byte>) {
    && Boxed(ps, w, h) && i <= h && w * i <= |ps| && |ps[w * i..]| == w * (h - i)
    && start + Rows(ps, w, h) == bytes + Rows(ps[w * i..], w, h - i)
  }

  lemma {:induction false} ProgressStart(start: seq<Byte>, ps: seq<Pixel>, w: nat, h: nat)
    requires Boxed(ps, w, h)
    ensures Progress(start, ps, w, h, 0, start)
  {
  }

  lemma {:induction false} ProgressStep(start: seq<Byte>, ps: seq<Pixel>, w: nat, h: nat, i: nat, bytes: seq<Byte>)
    requires Progress(start, ps, w, h, i, bytes) && i < h
    ensures w * i + w <= |ps|
    ensures Progress(start, ps, w, h, i + 1, bytes + (PixelBytes(ps[w * i..w * i + w]) + Zeros(Padding(w))))
  {
    hide PixelBytes, Zeros, Padding, Rows;
    RowsFrom(ps, w, h, i);
    RowsFrom(ps, w, h, i + 1);
    RowsUnfold(ps, w, h, i);
    var row := PixelBytes(ps[w * i..w * i + w]) + Zeros(Padding(w));
    Joined(bytes, row, Rows(ps[w * (i + 1)..], w, h - (i + 1)));
  }

  lemma {:induction false} ProgressEnd(start: seq<Byte>, ps: seq<Pixel>, w: nat, h: nat, bytes: seq<Byte>)
    requires Progress(start, ps, w, h, h, bytes)
    ensures bytes == start + Rows(ps, w, h)
  {
  }

  function FirstRow(p: Picture): seq<Pixel>
    requires Sized(p)
  {
    if p.height == 0 then [] else CellsOfRow(p.width, p.height); p.pixels[..p.width]
  }

  lemma {:induction false} CellsOfRow(w: nat, h: nat)
    requires h > 0
    ensures w <= w * h
  {
  }

  lemma {:induction false} FirstRowIs(p: Picture)
    requires Sized(p) && p.height > 0
    ensures p.width * 0 == 0 && p.width <= |p.pixels| && FirstRow(p) == p.pixels[0..p.width]
  {
  }

  lemma {:induction false} RowsFrom(ps: seq<Pixel>, w: nat, h: nat, i: nat)
    requires Boxed(ps, w, h) && i <= h
    ensures w * i <= |ps| && |ps[w * i..]| == w * (h - i)
    ensures i < h ==> w * i + w <= |ps|
  {
    assert w * h == w * i + w * (h - i);
    MulBounds(w, h - i);
  }

  lemma {:induction false} RowsUnfold(ps: seq<Pixel>, w: nat, h: nat, i: nat)
    requires Boxed(ps, w, h) && i < h
    ensures w * i + w <= |ps| && w * (i + 1) == w * i + w
    ensures |ps[w * i..]| == w * (h - i) && |ps[w * (i + 1)..]| == w * (h - (i + 1))
    ensures Rows(ps[w * i..], w, h - i) ==
      PixelBytes(ps[w * i..w * i + w]) + Zeros(Padding(w)) + Rows(ps[w * (i + 1)..], w, h - (i + 1))
  {
    RowsFrom(ps, w, h, i);
    RowsFrom(ps, w, h, i + 1);
    assert ps[w * i..][..w] == ps[w * i..w * i + w];
    assert ps[w * i..][w..] == ps[w * (i + 1)..];
  }

  /** The header of a written file, byte by byte; the sizes are FileSize's. */
  lemma {:induction false} FileHeader(p: Picture)
    requires Sized(p) && p.width < UINT32 && p.height < UINT32
    ensures var s, w, h := FileOf(p), p.width, p.height;
      && |s| >= 54 && s[0..2] == [0x42, 0x4D] && s[6..10] == [0, 0, 0, 0]
      && s[10..14] == [54, 0, 0, 0] && s[14..18] == [40, 0, 0, 0]
      && s[18..22] == [w % 256, w / 256 % 256, w / 65536 % 256, w / 16777216]
      && s[22..26] == [h % 256, h / 256 % 256, h / 65536 % 256, h / 16777216]
      && s[26..30] == [1, 0, 24, 0] && s[30..34] == [0, 0, 0, 0] && s[38..54] == Zeros(16)
  {
    hide Rows, ImageSize, HeaderBytes;
    var h := FillHeader(p.width, p.height);
    HeaderFront(h, Rows(p.pixels, p.width, p.height));
    HeaderBack(h, Rows(p.pixels, p.width, p.height));
  }

  lemma {:induction false} HeaderFront(h: Header, rest: seq<Byte>)
    requires Fits(h)
    ensures var s := HeaderBytes(h) + rest;
      && s[0..2] == Le16(h.bfType) && s[6..10] == Le32(h.bfReserved) && s[10..14] == Le32(h.bOffBits)
      && s[14..18] == Le32(h.biSize) && s[18..22] == Le32(h.biWidth) && s[22..26] == Le32(h.biHeight)
  {
    hide Le16, Le32;
  }

  lemma {:induction false} HeaderBack(h: Header, rest: seq<Byte>)
    requires Fits(h)
    ensures var s := HeaderBytes(h) + rest;
      && s[26..30] == Le16(h.biPlanes) + Le16(h.biBitCount) && s[30..34] == Le32(h.biCompression)
      && s[38..54] == Le32(h.biXPelsPerMeter) + Le32(h.biYPelsPerMeter) + Le32(h.biClrUsed) + Le32(h.biClrImportant)
  {
    hide Le16, Le32;
  }

  /** Where each pixel lies in a written file: rows from the header on, blue before green before red. */
  lemma {:induction false} PixelInFile(p: Picture, i: nat, j: nat)
    requires Sized(p) && p.width < UINT32 && p.height < UINT32 && i < p.height && j < p.width
    ensures var at := 54 + Stride(p.width) * i + 3 * j;
      var pixel := At(p, i, j);
      && 0 <= at && at + 3 <= |FileOf(p)|
      && FileOf(p)[at] == pixel.b && FileOf(p)[at + 1] == pixel.g && FileOf(p)[at + 2] == pixel.r
  {
    hide Rows, HeaderBytes, FillHeader, Stride, Boxed;
    PixelInRows(p.pixels, p.width, p.height, i, j);
  }

  lemma {:induction false} PixelInRows(ps: seq<Pixel>, w: nat, h: nat, i: nat, j: nat)
    requires Boxed(ps, w, h) && i < h && j < w
    ensures i * w + j < |ps| && Stride(w) * i >= 0
    ensures var at := Stride(w) * i + 3 * j;
      var rows, pixel := Rows(ps, w, h), ps[i * w + j];
      at + 3 <= |rows| && rows[at] == pixel.b && rows[at + 1] == pixel.g && rows[at + 2] == pixel.r
    decreases h
  {
    hide PixelBytes, Zeros, Stride, Padding, Rows, Boxed;
    CellInRows(ps, w, h, i, j);
    RowsCons(ps, w, h);
    if i == 0 {
      FirstPlaces(w, Stride(w));
      PixelBytesAt(ps[..w], j);
    } else {
      PixelInRows(ps[w..], w, h - 1, i - 1, j);
      NextPlaces(w, i);
      NextPlaces(Stride(w), i);
      var row, rest := PixelBytes(ps[..w]) + Zeros(Padding(w)), Rows(ps[w..], w, h - 1);
      BehindRow(row, rest, Stride(w) * (i - 1) + 3 * j);
      BehindRow(ps[..w], ps[w..], (i - 1) * w + j);
      assert ps == ps[..w] + ps[w..];
    }
  }

  lemma {:induction false} BehindRow<T>(row: seq<T>, rest: seq<T>, at: nat)
    ensures at < |rest| ==> (row + rest)[at + |row|] == rest[at]
    ensures at + 1 < |rest| ==> (row + rest)[at + |row| + 1] == rest[at + 1]
    ensures at + 2 < |rest| ==> (row + rest)[at + |row| + 2] == rest[at + 2]
  {
  }

  lemma {:induction false} CellInRows(ps: seq<Pixel>, w: nat, h: nat, i: nat, j: nat)
    requires Boxed(ps, w, h) && i < h && j < w
    ensures i * w + j < |ps| && Stride(w) * i >= 0
  {
    hide Stride;
    CellInside(i, j, w, h);
    MulBounds(Stride(w), i);
  }

  lemma {:induction false} RowsCons(ps: seq<Pixel>, w: nat, h: nat)
    requires Boxed(ps, w, h) && h > 0
    ensures w <= |ps| && Boxed(ps[w..], w, h - 1)
    ensures var row := PixelBytes(ps[..w]) + Zeros(Padding(w));
      Rows(ps, w, h) == row + Rows(ps[w..], w, h - 1) && |row| == Stride(w)
  {
    OneMore(w, h);
    MulBounds(w, h - 1);
  }

  lemma {:induction false} FirstPlaces(w: nat, stride: nat)
    ensures 0 * w == 0 && stride * 0 == 0
  {
  }

  lemma {:induction false} NextPlaces(a: nat, i: nat)
    requires i > 0
    ensures i * a == (i - 1) * a + a && a * i == a * (i - 1) + a
  {
  }

  lemma {:induction false} PixelBytesAt(ps: seq<Pixel>, j: nat)
    requires j < |ps|
    ensures var s := PixelBytes(ps); s[3 * j] == ps[j].b && s[3 * j + 1] == ps[j].g && s[3 * j + 2] == ps[j].r
  {
    if j > 0 {
      PixelBytesAt(ps[1..], j - 1);
      assert PixelBytes(ps)[3..] == PixelBytes(ps[1..]);
    }
  }

  /** Rows are aligned to four bytes, and bfileSize is the file's length exactly when that length fits 32 bits. */
  lemma {:induction false} FileSize(p: Picture)
    requires Sized(p) && p.width < UINT32 && p.height < UINT32
    ensures Stride(p.width) % 4 == 0
    ensures |FileOf(p)| == HEADER_SIZE + Stride(p.width) * p.height
    ensures FillHeader(p.width, p.height).biSizeImage == |FileOf(p)| - HEADER_SIZE <==>
      |FileOf(p)| - HEADER_SIZE < UINT32
    ensures FillHeader(p.width, p.height).bfileSize == |FileOf(p)| <==> |FileOf(p)| < UINT32
  {
    hide Rows, HeaderBytes;
    PaddingAligns(p.width);
    RowsLength(p.pixels, p.width, p.height);
    WrapOnce(Stride(p.width) * p.height);
  }

  lemma {:induction false} WrapOnce(n: nat)
    ensures (HEADER_SIZE + n % UINT32) % UINT32 == HEADER_SIZE + n <==> HEADER_SIZE + n < UINT32
  {
  }

  // ----- from_bmp -----

  datatype ReadStatus = ReadOk | ReadInvalidSignature | ReadInvalidBits | ReadInvalidCompression
    | ReadInvalidHeader | ReadFileNull | ReadMallocError | ReadError

  /** What from_bmp answers after reading the header, in the order of its tests. */
  function HeaderStatus(h: Header): ReadStatus {
    if h.bfType != SIGNATURE then ReadInvalidSignature
    else if h.biBitCount != BIT_COUNT then ReadInvalidBits
    else if h.biCompression != NO_COMPRESSION then ReadInvalidCompression
    else ReadOk
  }

  /** What from_bmp answers for a file; `room` is whether malloc finds memory for the pixels. */
  function StatusOf(s: seq<Byte>, room: bool): ReadStatus {
    if |s| < HEADER_SIZE then ReadInvalidHeader
    else
      var h := ParseHeader(s);
      if HeaderStatus(h) != ReadOk then HeaderStatus(h)
      else if !room then ReadMallocError
      else if ReadRows(s, h.bOffBits, h.biWidth, h.biHeight).Short? then ReadError
      else ReadOk
  }

  /** The status of a file long enough for a header, told from its bytes. */
  lemma {:induction false} StatusOfBytes(s: seq<Byte>, room: bool)
    requires |s| >= 54
    ensures var signed := s[0] == 0x42 && s[1] == 0x4D;
      var deep := s[28] == 24 && s[29] == 0;
      var plain := s[30] == 0 && s[31] == 0 && s[32] == 0 && s[33] == 0;
      var status := StatusOf(s, room);
      && (status == ReadInvalidSignature <==> !signed)
      && (status == ReadInvalidBits <==> signed && !deep)
      && (status == ReadInvalidCompression <==> signed && deep && !plain)
      && (status == ReadMallocError <==> signed && deep && plain && !room)
      && (status == ReadOk || status == ReadError <==> signed && deep && plain && room)
  {
    hide ReadRows;
  }

  /** The pixel count a file claims fits 32 bits. */
  predicate CountFits(s: seq<Byte>) {
    |s| >= HEADER_SIZE ==> ParseHeader(s).biWidth * ParseHeader(s).biHeight < UINT32
  }

  datatype Opening = Refused(status: ReadStatus) | Opened(header: Header)

  /** read_header and the tests on its fields */
  method ReadHeader(file: File) returns (r: Opening)
    requires file.pos == 0
    modifies file`pos
    ensures |file.bytes| < HEADER_SIZE ==> r == Refused(ReadInvalidHeader)
    ensures |file.bytes| >= HEADER_SIZE ==>
      && var h := ParseHeader(file.bytes);
      && r == if HeaderStatus(h) == ReadOk then Opened(h) else Refused(HeaderStatus(h))
  {
    hide ParseHeader, Fits;
    var count, item := file.Read(HEADER_SIZE);
    if count != 1 { return Refused(ReadInvalidHeader); }
    HeaderPrefix(file.bytes);
    var header := ParseHeader(item);
    if header.bfType != SIGNATURE { return Refused(ReadInvalidSignature); }
    if header.biBitCount != BIT_COUNT { return Refused(ReadInvalidBits); }
    if header.biCompression != NO_COMPRESSION { return Refused(ReadInvalidCompression); }
    return Opened(header);
  }

  method FromBmp(file: File?, room: bool) returns (status: ReadStatus, img: Image?)
    requires file != null ==> file.pos == 0 && CountFits(file.bytes)
    modifies file
    ensures file == null ==> status == ReadFileNull
    ensures file != null ==> file.bytes == old(file.bytes) && status == StatusOf(file.bytes, room)
    ensures file != null && status == ReadOk ==>
      && img != null && img.Valid()
      && var h := ParseHeader(file.bytes);
      && img.width == h.biWidth && img.height == h.biHeight
      && Pixels(img.data[..]) == ReadRows(file.bytes, h.bOffBits, h.biWidth, h.biHeight)
  {
    hide ReadRows, ParseHeader, HeaderStatus, Fits;
    img := null;
    if file == null { return ReadFileNull, null; }
    var r := ReadHeader(file);
    if r.Refused? { return r.status, null; }
    if !room { return ReadMallocError, null; }
    img := NewImage(r.header);
    file.Seek(r.header.bOffBits);
    var ok := ReadImage(file, img);
    status := if ok then ReadOk else ReadError;
  }

  /** create_image for the sizes of a header */
  method NewImage(h: Header) returns (img: Image)
    requires Fits(h) && h.biWidth * h.biHeight < UINT32
    ensures fresh(img) && fresh(img.data) && img.Valid() && img.width == h.biWidth && img.height == h.biHeight
  {
    img := new Image(h.biWidth, h.biHeight);
    WrapSmall(h.biWidth * h.biHeight);
  }

  lemma {:induction false} WrapSmall(n: nat)
    requires n < UINT32
    ensures n % UINT32 == n
  {
  }

  lemma {:induction false} HeaderPrefix(s: seq<Byte>)
    requires |s| >= HEADER_SIZE
    ensures ParseHeader(s[..HEADER_SIZE]) == ParseHeader(s) && s[0..HEADER_SIZE] == s[..HEADER_SIZE]
  {
  }

  /** d, with the pixels already read in front. */
  function Prepend(ps: seq<Pixel>, d: Decoded): Decoded {
    if d.Short? then Short else Pixels(ps + d.pixels)
  }

  /** The row loop of from_bmp. */
  method ReadImage(file: File, img: Image) returns (ok: bool)
    requires img.Valid()
    modifies file`pos, img.data
    ensures ok <==> !ReadRows(file.bytes, old(file.pos), img.width, img.height).Short?
    ensures ok ==> Pixels(img.data[..]) == ReadRows(file.bytes, old(file.pos), img.width, img.height)
  {
    hide ReadRows, PixelsOf, Padding, Stride;
    var w, h := img.width, img.height;
    var padding := Padding(w);
    StrideIs(w);
    ghost var s, at := file.bytes, file.pos;
    assert img.data[..w * 0] == [];
    PrependNothing(ReadRows(s, at, w, h));
    for i := 0 to h
      invariant w * i <= img.data.Length && file.bytes == s
      invariant ReadRows(s, at, w, h) == Prepend(img.data[..w * i], ReadRows(s, file.pos, w, h - i))
    {
      RowsFrom(img.data[..], w, h, i);
      ReadRowsStep(s, file.pos, w, h - i);
      ghost var done, here := img.data[..w * i], file.pos;
      var count, item := file.Read(w * 3);
      if count != 1 { return false; }
      var row := PixelsOf(item);
      forall k | 0 <= k < w { img.data[w * i + k] := row[k]; }
      file.Seek(file.pos + padding);
      assert w * (i + 1) == w * i + w;
      assert img.data[..w * i] == done;
      assert img.data[..w * (i + 1)] == done + row;
      PrependTwice(done, row, ReadRows(s, here + Stride(w), w, h - (i + 1)));
    }
    ReadRowsEnd(s, file.pos, w);
    assert img.data[..w * h] == img.data[..];
    return true;
  }

  lemma {:induction false} PrependNothing(d: Decoded)
    ensures Prepend([], d) == d
  {
  }

  lemma {:induction false} PrependTwice(a: seq<Pixel>, b: seq<Pixel>, d: Decoded)
    ensures Prepend(a, Prepend(b, d)) == Prepend(a + b, d)
  {
  }

  lemma {:induction false} ReadRowsStep(s: seq<Byte>, at: nat, w: nat, h: nat)
    requires h > 0
    ensures ReadRows(s, at, w, h) ==
      if w == 0 || at + 3 * w > |s| then Short
      else Prepend(PixelsOf(s[at..at + 3 * w]), ReadRows(s, at + Stride(w), w, h - 1))
  {
  }

  lemma {:induction false} ReadRowsEnd(s: seq<Byte>, at: nat, w: nat)
    ensures forall ps :: Prepend(ps, ReadRows(s, at, w, 0)) == Pixels(ps)
  {
  }

  // ----- Writing, then reading -----

  /** The file of an image, whatever its width, reads back as that image, unless it has rows of no pixels. */
  lemma {:induction false} RoundTrip(p: Picture)
    requires Sized(p) && p.width < UINT32 && p.height < UINT32
    ensures StatusOf(FileOf(p), true) == ReadOk <==> p.height == 0 || p.width > 0
    ensures var h := ParseHeader(FileOf(p));
      && HeaderStatus(h) == ReadOk && h.biWidth == p.width && h.biHeight == p.height
      && ReadRows(FileOf(p), h.bOffBits, p.width, p.height) ==
           if p.height == 0 || p.width > 0 then Pixels(p.pixels) else Short
  {
    hide ParseHeader, HeaderBytes, Rows, ReadRows;
    var h := FillHeader(p.width, p.height);
    HeaderRoundTrip(h, Rows(p.pixels, p.width, p.height));
    if p.height == 0 || p.width > 0 {
      ReadOfRows(HeaderBytes(h), p.pixels, p.width, p.height);
    } else {
      ReadRowsStep(FileOf(p), h.bOffBits, p.width, p.height);
    }
  }

  /** An image written by to_bmp and read by from_bmp comes back whole; when writing fails there is nothing to read. */
  method WriteThenRead(img: Image) returns (back: Image?)
    requires img.Valid() && img.width * img.height < UINT32
    ensures back != null <==> img.height == 0 || img.width % 4 != 0
    ensures back != null ==>
      back.Valid() && back.width == img.width && back.height == img.height && back.data[..] == img.data[..]
  {
    hide FileOf, ReadRows, StatusOf, ParseHeader, Boxed;
    var file := new File([]);
    var written := ToBmp(file, img);
    if written != WriteOk { return null; }
    RoundTrip(img.Value());
    file.Seek(0);
    var read;
    read, back := FromBmp(file, true);
  }

  /** Whatever to_bmp leaves in the file, on success or failure. */
  function LeftBy(p: Picture): seq<Byte>
    requires Sized(p) && p.width < UINT32 && p.height < UINT32
  {
    if p.height == 0 || p.width % 4 != 0 then FileOf(p)
    else HeaderBytes(FillHeader(p.width, p.height)) + PixelBytes(FirstRow(p))
  }

  /** An image of four pixels in one row cannot be written. */
  method FourByOne() returns (status: WriteStatus)
    ensures status == WriteError
  {
    var out := new File([]);
    var img := new Image(4, 1);
    status := ToBmp(out, img);
  }

  /** Reading what to_bmp left succeeds exactly for images without rows, with padded rows, or of a single non-empty
      row. */
  lemma {:induction false} ReadableIff(p: Picture)
    requires Sized(p) && p.width < UINT32 && p.height < UINT32
    ensures StatusOf(LeftBy(p), true) == ReadOk <==> p.height == 0 || p.width % 4 != 0 || (p.height == 1 && p.width > 0)
  {
    hide ParseHeader, HeaderBytes, Rows, PixelBytes;
    if p.height == 0 || p.width % 4 != 0 {
      RoundTrip(p);
    } else {
      var h := FillHeader(p.width, p.height);
      var row := PixelBytes(FirstRow(p));
      HeaderRoundTrip(h, row);
      CellsOfRow(p.width, p.height);
      ReadRowsStep(HeaderBytes(h) + row, HEADER_SIZE, p.width, p.height);
      if p.height > 1 { ReadRowsStep(HeaderBytes(h) + row, HEADER_SIZE + Stride(p.width), p.width, p.height - 1); }
    }
  }
}
