/** Where the pixels of a locked buffer live: the linear view a CPU lock returns
    (rows of `stride` bytes), the image behind it, and the two transfer commands
    that move texels between an image and a buffer. */
module PixelLayout {
  import opened ModArith

  type byte = bv8
  type Texel = seq<byte>
  type Image = seq<seq<Texel>>

  datatype Geo = Geo(width: nat, height: nat, bpp: nat, stride: nat)

  /** A stride of whole pixels that holds a row: what the lock's guard is for. */
  predicate Mappable(g: Geo) {
    && g.bpp > 0
    && g.stride % g.bpp == 0
    && g.width * g.bpp <= g.stride
  }

  predicate IsRow(g: Geo, row: seq<Texel>) {
    |row| == g.width && forall x :: 0 <= x < |row| ==> |row[x]| == g.bpp
  }

  /** The first n rows are rows of this geometry. */
  predicate RowsOk(g: Geo, img: Image, n: nat)
    requires n <= |img|
  {
    n == 0 || (RowsOk(g, img, n - 1) && IsRow(g, img[n - 1]))
  }

  predicate IsImage(g: Geo, img: Image) {
    |img| == g.height && RowsOk(g, img, g.height)
  }

  lemma {:induction false} RowsAt(g: Geo, img: Image, n: nat)
    requires n <= |img|
    ensures RowsOk(g, img, n) <==> forall y :: 0 <= y < n ==> IsRow(g, img[y])
  {
    if n > 0 { RowsAt(g, img, n - 1); }
  }

  predicate SameRow(a: seq<Texel>, b: seq<Texel>) {
    |a| == |b| && forall x :: 0 <= x < |a| ==> |a[x]| == |b[x]|
  }

  /** Images of the same width, height and texel size, whatever those are. */
  predicate SameShape(a: Image, b: Image) {
    |a| == |b| && forall y :: 0 <= y < |a| ==> SameRow(a[y], b[y])
  }

  lemma ShapeKept(g: Geo, a: Image, b: Image)
    requires SameShape(a, b) && IsImage(g, a)
    ensures IsImage(g, b)
  {
    RowsAt(g, a, g.height);
    RowsAt(g, b, g.height);
    forall y | 0 <= y < g.height ensures IsRow(g, b[y]) { assert IsRow(g, a[y]) && SameRow(a[y], b[y]); }
  }

  lemma ImagesSameShape(g: Geo, a: Image, b: Image)
    requires IsImage(g, a) && IsImage(g, b)
    ensures SameShape(a, b)
  {
    RowsAt(g, a, g.height);
    RowsAt(g, b, g.height);
    forall y | 0 <= y < g.height ensures SameRow(a[y], b[y]) { assert IsRow(g, a[y]) && IsRow(g, b[y]); }
  }

  function TexelOf(g: Geo, img: Image, x: nat, y: nat): (t: Texel)
    requires IsImage(g, img) && x < g.width && y < g.height
    ensures |t| == g.bpp
    ensures y < |img| && x < |img[y]| && t == img[y][x]
  {
    RowsAt(g, img, g.height);
    assert IsRow(g, img[y]);
    img[y][x]
  }

  function ViewSize(g: Geo): nat {
    g.stride * g.height
  }

  function PixelOffset(g: Geo, x: nat, y: nat): nat {
    y * g.stride + x * g.bpp
  }

  lemma PixelInBounds(g: Geo, x: nat, y: nat)
    requires Mappable(g) && x < g.width && y < g.height
    ensures x * g.bpp + g.bpp <= g.stride
    ensures PixelOffset(g, x, y) + g.bpp <= ViewSize(g)
  {
    MulMono(x + 1, g.width, g.bpp);
    MulMono(y + 1, g.height, g.stride);
  }

  function PixelAt(g: Geo, view: seq<byte>, x: nat, y: nat): (t: Texel)
    requires Mappable(g) && |view| == ViewSize(g) && x < g.width && y < g.height
    ensures |t| == g.bpp
  {
    PixelInBounds(g, x, y);
    view[PixelOffset(g, x, y)..PixelOffset(g, x, y) + g.bpp]
  }

  /** The image a linear view stands for: pixel (x, y) at y*stride + x*bpp. */
  function PixelsOf(g: Geo, view: seq<byte>): (img: Image)
    requires Mappable(g) && |view| == ViewSize(g)
    ensures IsImage(g, img)
  {
    var img := seq(g.height, y requires 0 <= y < g.height =>
      seq(g.width, x requires 0 <= x < g.width => PixelAt(g, view, x, y)));
    RowsAt(g, img, g.height);
    img
  }

  /** Spelled out: the pixel's bytes, from `stride` bytes a row and `bpp` bytes a pixel on. */
  lemma PixelsAre(g: Geo, view: seq<byte>, x: nat, y: nat, k: nat)
    requires Mappable(g) && |view| == g.stride * g.height && x < g.width && y < g.height && k < g.bpp
    ensures |PixelsOf(g, view)| == g.height && |PixelsOf(g, view)[y]| == g.width
    ensures |PixelsOf(g, view)[y][x]| == g.bpp && y * g.stride + x * g.bpp + k < |view|
    ensures PixelsOf(g, view)[y][x][k] == view[y * g.stride + x * g.bpp + k]
  {
    PixelInBounds(g, x, y);
    assert TexelOf(g, PixelsOf(g, view), x, y) == PixelAt(g, view, x, y);
  }

  lemma ImagesEqual(g: Geo, a: Image, b: Image)
    requires IsImage(g, a) && IsImage(g, b)
    requires forall x, y :: 0 <= x < g.width && 0 <= y < g.height ==> TexelOf(g, a, x, y) == TexelOf(g, b, x, y)
    ensures a == b
  {
    RowsAt(g, a, g.height);
    RowsAt(g, b, g.height);
    forall y | 0 <= y < g.height
      ensures a[y] == b[y]
    {
      assert IsRow(g, a[y]) && IsRow(g, b[y]);
      forall x | 0 <= x < g.width ensures a[y][x] == b[y][x] {
        assert TexelOf(g, a, x, y) == TexelOf(g, b, x, y);
      }
    }
  }

  // ---- the transfer commands, addressed as Vulkan addresses them ------------

  function TexelAddress(rowLength: nat, bpp: nat, x: nat, y: nat): nat {
    (y * rowLength + x) * bpp
  }

  lemma TexelIsPixel(g: Geo, x: nat, y: nat)
    requires Mappable(g)
    ensures TexelAddress(g.stride / g.bpp, g.bpp, x, y) == PixelOffset(g, x, y)
  {
    var rl := g.stride / g.bpp;
    assert rl * g.bpp == g.stride;
    assert (y * rl + x) * g.bpp == y * (rl * g.bpp) + x * g.bpp;
  }

  /** The buffer holds every texel a copy of this geometry addresses. */
  predicate RegionFits(g: Geo, rowLength: nat, size: nat) {
    forall x, y :: 0 <= x < g.width && 0 <= y < g.height ==>
      TexelAddress(rowLength, g.bpp, x, y) + g.bpp <= size
  }

  /** A staging row of whole texels is at least as long as an image row. */
  lemma RowHolds(g: Geo)
    requires Mappable(g)
    ensures g.stride / g.bpp * g.bpp == g.stride && g.width <= g.stride / g.bpp
  {
    var rl := g.stride / g.bpp;
    assert rl * g.bpp == g.stride;
    if g.width > rl { MulMono(rl + 1, g.width, g.bpp); }
  }

  lemma LockRegionFits(g: Geo)
    requires Mappable(g)
    ensures RegionFits(g, g.stride / g.bpp, ViewSize(g))
  {
    forall x, y | 0 <= x < g.width && 0 <= y < g.height
      ensures TexelAddress(g.stride / g.bpp, g.bpp, x, y) + g.bpp <= ViewSize(g)
    {
      TexelIsPixel(g, x, y);
      PixelInBounds(g, x, y);
    }
  }

  /** vkCmdCopyBufferToImage of the whole image. */
  function CopyBufferToImage(g: Geo, rowLength: nat, buf: seq<byte>): (img: Image)
    requires RegionFits(g, rowLength, |buf|)
    ensures IsImage(g, img)
  {
    var img := seq(g.height, y requires 0 <= y < g.height =>
      seq(g.width, x requires 0 <= x < g.width =>
        var at := TexelAddress(rowLength, g.bpp, x, y); buf[at..at + g.bpp]));
    RowsAt(g, img, g.height);
    img
  }

  /** vkCmdCopyImageToBuffer of the whole image: bytes outside its texels are kept. */
  function CopyImageToBuffer(g: Geo, rowLength: nat, img: Image, buf: seq<byte>): (r: seq<byte>)
    requires g.bpp > 0 && rowLength > 0 && IsImage(g, img)
    ensures |r| == |buf|
  {
    seq(|buf|, i requires 0 <= i < |buf| =>
      var t := i / g.bpp;
      var x, y := t % rowLength, t / rowLength;
      if x < g.width && y < g.height then TexelOf(g, img, x, y)[i % g.bpp] else buf[i])
  }

  lemma CopiedTexel(g: Geo, rowLength: nat, img: Image, buf: seq<byte>, x: nat, y: nat)
    requires g.bpp > 0 && g.width <= rowLength && IsImage(g, img)
    requires x < g.width && y < g.height
    requires TexelAddress(rowLength, g.bpp, x, y) + g.bpp <= |buf|
    ensures var at := TexelAddress(rowLength, g.bpp, x, y);
            CopyImageToBuffer(g, rowLength, img, buf)[at..at + g.bpp] == TexelOf(g, img, x, y)
  {
    var at := TexelAddress(rowLength, g.bpp, x, y);
    var r := CopyImageToBuffer(g, rowLength, img, buf);
    forall k | 0 <= k < g.bpp
      ensures r[at + k] == TexelOf(g, img, x, y)[k]
    {
      DivModUnique(at + k, g.bpp, y * rowLength + x, k);
      DivModUnique(y * rowLength + x, rowLength, y, x);
    }
  }

  /** Read-back: the staging copy then shows exactly the image. */
  lemma ReadBackShowsImage(g: Geo, img: Image, buf: seq<byte>)
    requires Mappable(g) && g.stride > 0 && IsImage(g, img) && |buf| == ViewSize(g)
    ensures PixelsOf(g, CopyImageToBuffer(g, g.stride / g.bpp, img, buf)) == img
  {
    var rl := g.stride / g.bpp;
    RowHolds(g);
    var r := CopyImageToBuffer(g, rl, img, buf);
    forall x, y | 0 <= x < g.width && 0 <= y < g.height
      ensures TexelOf(g, PixelsOf(g, r), x, y) == TexelOf(g, img, x, y)
    {
      TexelIsPixel(g, x, y);
      PixelInBounds(g, x, y);
      CopiedTexel(g, rl, img, buf, x, y);
    }
    ImagesEqual(g, PixelsOf(g, r), img);
  }

  /** Write-back: the image then is exactly what the view stands for. */
  lemma WriteBackStoresView(g: Geo, view: seq<byte>)
    requires Mappable(g) && |view| == ViewSize(g)
    ensures RegionFits(g, g.stride / g.bpp, |view|)
    ensures CopyBufferToImage(g, g.stride / g.bpp, view) == PixelsOf(g, view)
  {
    LockRegionFits(g);
    var img := CopyBufferToImage(g, g.stride / g.bpp, view);
    forall x, y | 0 <= x < g.width && 0 <= y < g.height
      ensures TexelOf(g, img, x, y) == TexelOf(g, PixelsOf(g, view), x, y)
    {
      TexelIsPixel(g, x, y);
    }
    ImagesEqual(g, img, PixelsOf(g, view));
  }

  // ---- a CPU store through the view ------------------------------------------

  lemma PositiveStride(g: Geo, off: nat)
    requires off < ViewSize(g)
    ensures g.stride > 0
  {}

  /** Row, column and byte-in-pixel of an offset of the view. */
  function ByteOf(off: nat, stride: nat, bpp: nat): (p: (nat, nat, nat))
    requires stride > 0 && bpp > 0
    ensures p.2 < bpp && p.1 * bpp + p.2 < stride
    ensures off == p.0 * stride + (p.1 * bpp + p.2)
  {
    var c := off % stride;
    (off / stride, c / bpp, c % bpp)
  }

  lemma ByteOfUnique(off: nat, stride: nat, bpp: nat, y: nat, x: nat, k: nat)
    requires stride > 0 && bpp > 0
    requires k < bpp && x * bpp + k < stride && off == y * stride + (x * bpp + k)
    ensures ByteOf(off, stride, bpp) == (y, x, k)
  {
    var p := ByteOf(off, stride, bpp);
    assert (y - p.0) * stride == (p.1 * bpp + p.2) - (x * bpp + k);
    MultipleApart(y - p.0, stride);
    assert (x - p.1) * bpp == p.2 - k;
    MultipleApart(x - p.1, bpp);
  }

  /** What storing byte b at offset `off` of a plain linear buffer does to its
      pixels: one byte of one pixel, or nothing when `off` lies in row padding. */
  function StoreByte(g: Geo, img: Image, off: nat, b: byte): Image {
    if g.stride == 0 || g.bpp == 0 then img
    else
      var (y, x, k) := ByteOf(off, g.stride, g.bpp);
      if x < g.width && y < |img| && x < |img[y]| && k < |img[y][x]|
      then img[y := img[y][x := img[y][x][k := b]]] else img
  }

  lemma StoreByteShape(g: Geo, img: Image, off: nat, b: byte)
    requires IsImage(g, img)
    ensures IsImage(g, StoreByte(g, img, off, b))
  {
    RowsAt(g, img, g.height);
    var r := StoreByte(g, img, off, b);
    RowsAt(g, r, g.height);
    forall y | 0 <= y < g.height ensures IsRow(g, r[y]) { assert IsRow(g, img[y]); }
  }

  /** Pixel (x, y) holds byte `off` exactly when off decomposes to that row and column. */
  lemma WhichPixel(g: Geo, off: nat, x: nat, y: nat)
    requires Mappable(g) && off < ViewSize(g) && x < g.width && y < g.height
    ensures g.stride > 0
    ensures var p := ByteOf(off, g.stride, g.bpp);
            if p.0 == y && p.1 == x
            then off == PixelOffset(g, x, y) + p.2
            else !(PixelOffset(g, x, y) <= off < PixelOffset(g, x, y) + g.bpp)
  {
    PositiveStride(g, off);
    PixelInBounds(g, x, y);
    if PixelOffset(g, x, y) <= off < PixelOffset(g, x, y) + g.bpp {
      ByteOfUnique(off, g.stride, g.bpp, y, x, off - PixelOffset(g, x, y));
    }
  }

  /** Storing through the view is storing into the linear buffer: the bytes of
      the addressed pixel change, every other pixel keeps its value, and a store
      into padding reaches no pixel. */
  lemma StoreThroughView(g: Geo, view: seq<byte>, off: nat, b: byte)
    requires Mappable(g) && |view| == ViewSize(g) && off < |view|
    ensures PixelsOf(g, view[off := b]) == StoreByte(g, PixelsOf(g, view), off, b)
  {
    var img := PixelsOf(g, view);
    var img' := StoreByte(g, img, off, b);
    StoreByteShape(g, img, off, b);
    forall x, y | 0 <= x < g.width && 0 <= y < g.height
      ensures TexelOf(g, PixelsOf(g, view[off := b]), x, y) == TexelOf(g, img', x, y)
    {
      WhichPixel(g, off, x, y);
      PixelInBounds(g, x, y);
      assert TexelOf(g, PixelsOf(g, view[off := b]), x, y) == PixelAt(g, view[off := b], x, y);
      assert TexelOf(g, img, x, y) == PixelAt(g, view, x, y);
    }
    ImagesEqual(g, PixelsOf(g, view[off := b]), img');
  }
}
