/** The size of a mouse pointer request, the layout of the image in it, and what
    the host makes of both. */
module MousePointer {
  import opened Bytes
  import opened Hgcm

  /** Offset of the image in VMMDevReqMousePointer, and the structure's size. */
  const OFF_POINTER_DATA: nat := 44
  const SIZEOF_REQUEST: nat := 48
  const MAX_SIDE: nat := 8192
  const SIZEOF_REQUEST_HEADER: nat := 24

  function Wrap32(x: nat): u32 {
    x % 0x1_0000_0000
  }

  function Align4(x: nat): (r: nat)
    ensures r % 4 == 0 && x <= r < x + 4
  {
    (x + 3) / 4 * 4
  }

  function Max(x: nat, y: nat): nat {
    if x > y then x else y
  }

  // ----- The size -----

  /** The size of a request with masks of the given sizes. */
  function SizeOf(cbMask: nat, cbArgb: nat): nat {
    OFF_POINTER_DATA + Align4(cbMask) + cbArgb
  }

  /** vmmdevGetMousePointerReqSize: products of 32 bits, sums of size_t. */
  function ReqSize(width: u32, height: u32, is64: bool): nat {
    var cbMask := Wrap32(Wrap32(width + 7) / 8 * height);
    var cbArgb := Wrap32(Wrap32(width * height) * 4);
    var sum := SizeOf(cbMask, cbArgb);
    Max(if is64 then sum else Wrap32(sum), SIZEOF_REQUEST)
  }

  /** Bytes of a scanline of the AND mask. */
  function Stride(width: nat): nat {
    (width + 7) / 8
  }

  /** The size as documented, with nothing cut off. */
  function ExactSize(width: nat, height: nat): nat {
    Max(SizeOf(Stride(width) * height, width * height * 4), SIZEOF_REQUEST)
  }

  lemma MaskBelowArea(width: nat, height: nat)
    ensures Stride(width) * height <= width * height
  {
    if width > 0 {
      assert Stride(width) <= width;
      assert Stride(width) * height <= width * height;
    }
  }

  lemma AreaAtLeast(width: nat, height: nat)
    requires width > 0x1_0000_0000 - 8 && height > 0
    ensures width * height * 4 >= 0x1_0000_0000
  {
    assert width * height >= width;
  }

  /** No product wraps while the colour mask is smaller than 4 GB. */
  lemma ProductsExact(width: u32, height: u32)
    requires width * height * 4 < 0x1_0000_0000
    ensures Wrap32(Wrap32(width + 7) / 8 * height) == Stride(width) * height < 0x4000_0000
    ensures Wrap32(Wrap32(width * height) * 4) == width * height * 4
  {
    hide Wrap32;
    MaskBelowArea(width, height);
    SmallIsExact(width * height);
    SmallIsExact(width * height * 4);
    SmallIsExact(Stride(width) * height);
    if height == 0 {
      assert Wrap32(width + 7) / 8 * height == 0 == Stride(width) * height;
    } else if width > 0x1_0000_0000 - 8 {
      AreaAtLeast(width, height);
    } else {
      SmallIsExact(width + 7);
    }
  }

  /** The computed size is the exact one just when the colour mask is smaller
      than 4 GB, and on 32 bits when the whole request is. */
  lemma SizeExact(width: u32, height: u32)
    ensures ReqSize(width, height, true) == ExactSize(width, height) <==> width * height * 4 < 0x1_0000_0000
    ensures ReqSize(width, height, false) == ExactSize(width, height) <==> ExactSize(width, height) < 0x1_0000_0000
  {
    hide Wrap32, Align4, SizeOf, Stride;
    var mask, area4 := Stride(width) * height, width * height * 4;
    if area4 < 0x1_0000_0000 {
      ProductsExact(width, height);
      SizeFrom(mask, area4);
    } else {
      ProductsSmaller(width, height);
      SizeFrom(mask, area4);
      SizeSmaller(Wrap32(Wrap32(width + 7) / 8 * height), Wrap32(Wrap32(width * height) * 4), mask, area4);
    }
  }

  lemma SizeFrom(cbMask: nat, cbArgb: nat)
    ensures cbArgb >= 0x1_0000_0000 ==> Max(SizeOf(cbMask, cbArgb), SIZEOF_REQUEST) >= 0x1_0000_0000
    ensures Max(Wrap32(SizeOf(cbMask, cbArgb)), SIZEOF_REQUEST) == Max(SizeOf(cbMask, cbArgb), SIZEOF_REQUEST)
            <==> Max(SizeOf(cbMask, cbArgb), SIZEOF_REQUEST) < 0x1_0000_0000
  {
  }

  lemma SizeSmaller(m: nat, a: nat, mask: nat, area4: nat)
    requires m <= mask && a < area4 && area4 >= 0x1_0000_0000
    ensures Max(SizeOf(m, a), SIZEOF_REQUEST) < Max(SizeOf(mask, area4), SIZEOF_REQUEST)
  {
  }

  lemma ProductsSmaller(width: u32, height: u32)
    requires width * height * 4 >= 0x1_0000_0000
    ensures Wrap32(Wrap32(width + 7) / 8 * height) <= Stride(width) * height
    ensures Wrap32(Wrap32(width * height) * 4) < width * height * 4
  {
    hide Wrap32;
    WrapSmaller(width + 7);
    Monotone(Wrap32(width + 7) / 8, Stride(width), height);
    WrapSmaller(Wrap32(width + 7) / 8 * height);
    WrapSmaller(width * height);
  }

  lemma WrapSmaller(x: nat)
    ensures Wrap32(x) <= x
    ensures x * 4 >= 0x1_0000_0000 ==> Wrap32(Wrap32(x) * 4) < x * 4
  {
  }

  lemma Monotone(a: nat, b: nat, n: nat)
    requires a <= b
    ensures a * n <= b * n
  {
  }

  // ----- The image -----

  /** Where the AND mask has the bit of a pixel: byte and bit. */
  function AndByte(width: nat, x: nat, y: nat): nat {
    OFF_POINTER_DATA + Stride(width) * y + x / 8
  }

  function AndBit(x: nat): nat {
    7 - x % 8
  }

  function XorStart(width: nat, height: nat): nat {
    OFF_POINTER_DATA + Align4(Stride(width) * height)
  }

  /** Where the XOR mask has the word of a pixel. */
  function XorWord(width: nat, height: nat, x: nat, y: nat): nat {
    XorStart(width, height) + 4 * (width * y + x)
  }

  lemma RowMajor(w: nat, h: nat, x: nat, y: nat)
    requires x < w && y < h
    ensures w * y + x < w * h
  {
    assert w * (y + 1) <= w * h;
    assert w * (y + 1) == w * y + w;
  }

  lemma RowMajorApart(w: nat, x1: nat, y1: nat, x2: nat, y2: nat)
    requires x1 < w && y1 < y2
    ensures w * y1 + x1 < w * y2 + x2
  {
    assert w * y2 >= w * (y1 + 1) == w * y1 + w;
  }

  /** Every pixel has its bit in the AND mask and its aligned word in the XOR
      mask behind it, all inside the exact size. */
  lemma PixelInside(width: nat, height: nat, x: nat, y: nat)
    requires x < width && y < height
    ensures OFF_POINTER_DATA <= AndByte(width, x, y) < XorStart(width, height)
    ensures XorStart(width, height) % 4 == 0 && XorWord(width, height, x, y) % 4 == 0
    ensures XorStart(width, height) <= XorWord(width, height, x, y)
    ensures XorWord(width, height, x, y) + 4 <= ExactSize(width, height)
  {
    hide Align4, Stride;
    StrideCovers(width, x);
    RowMajor(Stride(width), height, x / 8, y);
    RowMajor(width, height, x, y);
  }

  lemma StrideCovers(width: nat, x: nat)
    requires x < width
    ensures x / 8 < Stride(width)
  {
  }

  /** Different pixels have different bits and words that do not overlap. */
  lemma PixelsDistinct(width: nat, height: nat, x1: nat, y1: nat, x2: nat, y2: nat)
    requires x1 < width && x2 < width && (x1 != x2 || y1 != y2)
    ensures AndByte(width, x1, y1) != AndByte(width, x2, y2) || AndBit(x1) != AndBit(x2)
    ensures var (p, q) := (XorWord(width, height, x1, y1), XorWord(width, height, x2, y2));
            p + 4 <= q || q + 4 <= p
  {
    if y1 < y2 {
      RowMajorApart(Stride(width), x1 / 8, y1, x2 / 8, y2);
      RowMajorApart(width, x1, y1, x2, y2);
    } else if y2 < y1 {
      RowMajorApart(Stride(width), x2 / 8, y2, x1 / 8, y1);
      RowMajorApart(width, x2, y2, x1, y1);
    }
  }

  /** The image ends where the request does: no byte too few or too many. */
  lemma SizeTight(width: nat, height: nat)
    requires width > 0 && height > 0
    ensures XorWord(width, height, width - 1, height - 1) + 4 == ExactSize(width, height)
  {
    assert width * (height - 1) + width == width * height;
    assert width * height >= 1 by {
      RowMajor(width, height, 0, 0);
    }
    RowMajor(Stride(width), height, 0, 0);
  }

  // ----- The host -----

  /** vmmdevVerifyPointerShape. */
  function VerifyPointerShape(size: u32, width: u32, height: u32): int32 {
    if width > MAX_SIDE || height > MAX_SIDE then VERR_INVALID_PARAMETER
    else
      var cbAnd := Wrap32(Wrap32(width + 7) / 8 * height);
      var cbShape := Wrap32(Wrap32(Align4(cbAnd)) + Wrap32(Wrap32(width * 4) * height));
      if OFF_POINTER_DATA + cbShape > size then VERR_INVALID_PARAMETER else VINF_SUCCESS
  }

  /** What becomes of a request that asks for a shape: it is dropped, refused, or
      taken, by its shape or as if there was none. */
  datatype Verdict = Dropped | Refused(rc: int32) | WithShape | WithoutShape

  /** vmmdevReqHandler_SetPointerShape. */
  function SetPointerShape(size: u32, width: u32, height: u32): Verdict {
    if size < SIZEOF_REQUEST then Refused(VERR_INVALID_PARAMETER)
    else if size == SIZEOF_REQUEST then WithoutShape
    else
      var rc := VerifyPointerShape(size, width, height);
      if rc < 0 then Refused(rc) else WithShape
  }

  /** The host's request handler looks at the size before it gets to that. */
  function HandleRequest(size: u32, width: u32, height: u32): Verdict {
    if size < SIZEOF_REQUEST_HEADER then Dropped
    else if size > MAX_REQUEST_SIZE then Refused(VERR_NOT_SUPPORTED)
    else SetPointerShape(size, width, height)
  }

  /** There is a request as large as the guest computes, and the host goes by its
      shape. */
  predicate ShapeTaken(width: u32, height: u32, is64: bool) {
    var size := ReqSize(width, height, is64);
    size < 0x1_0000_0000 && HandleRequest(size, width, height).WithShape?
  }

  /** The host does so exactly when the pointer is not empty, no side is too long
      and the size is one it takes of any request. */
  lemma ComputedSizeTaken(width: u32, height: u32, is64: bool)
    ensures ShapeTaken(width, height, is64)
        <==> 0 < width <= MAX_SIDE && 0 < height <= MAX_SIDE && ReqSize(width, height, is64) <= MAX_REQUEST_SIZE
  {
    hide ReqSize;
    if width == 0 || height == 0 {
      EmptySize(width, height, is64);
    } else if width <= MAX_SIDE && height <= MAX_SIDE {
      ShapeFits(width, height, is64);
    }
  }

  /** Whatever the size given, the check succeeds if and only if no side is too
      long and the size covers the masks, with nothing cut off. */
  lemma ShapeChecked(size: u32, width: u32, height: u32)
    ensures VerifyPointerShape(size, width, height) == VINF_SUCCESS
        <==> && width <= 8192 && height <= 8192
             && 44 + ((width + 7) / 8 * height + 3) / 4 * 4 + 4 * (width * height) <= size
    ensures VerifyPointerShape(size, width, height) == VINF_SUCCESS || VerifyPointerShape(size, width, height) == VERR_INVALID_PARAMETER
  {
    if width <= MAX_SIDE && height <= MAX_SIDE {
      hide Wrap32, Align4;
      var (mask, area4) := (Stride(width) * height, width * height * 4);
      SidesBounded(width, height);
      ProductsExact(width, height);
      Reordered(width, height);
      SmallIsExact(width * 4);
      SmallIsExact(area4);
      SmallIsExact(Align4(mask));
      SmallIsExact(Align4(mask) + area4);
      Aligned4(mask);
    }
  }

  lemma Aligned4(x: nat)
    ensures Align4(x) == (x + 3) / 4 * 4
  {
  }

  /** So of requests for a shape the host goes by exactly those. */
  lemma RequestTaken(size: u32, width: u32, height: u32)
    ensures HandleRequest(size, width, height).WithShape?
        <==> && 48 < size <= 0x10_0000 && width <= 8192 && height <= 8192
             && 44 + ((width + 7) / 8 * height + 3) / 4 * 4 + 4 * (width * height) <= size
  {
    hide VerifyPointerShape;
    ShapeChecked(size, width, height);
  }

  /** So pointers far smaller than the longest side are not taken: of the square
      ones only those up to 504 pixels. */
  lemma SquareTaken(n: u32, is64: bool)
    ensures ShapeTaken(n, n, is64) <==> 0 < n <= 504
  {
    hide ReqSize, ExactSize, ShapeTaken;
    ComputedSizeTaken(n, n, is64);
    if 0 < n <= MAX_SIDE {
      ShapeFits(n, n, is64);
      SquareSize(n);
    }
  }

  lemma SquareSize(n: nat)
    ensures n <= 504 ==> ExactSize(n, n) <= MAX_REQUEST_SIZE
    ensures n >= 505 ==> ExactSize(n, n) > MAX_REQUEST_SIZE
  {
    if n <= 504 {
      Monotone(n, 504, n);
      Monotone(Stride(n), 63, n);
    } else {
      Monotone(505, n, n);
      Monotone(64, Stride(n), n);
    }
  }

  /** The pointer of 512 by 512 pixels, whose request is refused. */
  lemma TooLargePointer(is64: bool)
    ensures ReqSize(512, 512, is64) == 1081388
    ensures HandleRequest(1081388, 512, 512) == Refused(VERR_NOT_SUPPORTED)
  {
    hide ReqSize;
    ShapeFits(512, 512, is64);
    assert Align4(Stride(512) * 512) == 32768;
  }

  lemma ShapeFits(width: u32, height: u32, is64: bool)
    requires 0 < width <= MAX_SIDE && 0 < height <= MAX_SIDE
    ensures SIZEOF_REQUEST < ReqSize(width, height, is64) == ExactSize(width, height) < 0x1_0000_0000
    ensures VerifyPointerShape(ReqSize(width, height, is64), width, height) == VINF_SUCCESS
  {
    hide Wrap32, Align4, Stride, SizeOf;
    var mask, area4 := Stride(width) * height, width * height * 4;
    SidesBounded(width, height);
    ProductsExact(width, height);
    RowMajor(width, height, 0, 0);
    StrideCovers(width, 0);
    RowMajor(Stride(width), height, 0, 0);
    Reordered(width, height);
    SizeIs(mask, area4);
    SmallIsExact(width * 4);
    SmallIsExact(area4);
    SmallIsExact(Align4(mask));
    SmallIsExact(Align4(mask) + area4);
    SmallIsExact(SizeOf(mask, area4));
  }

  lemma Reordered(width: nat, height: nat)
    ensures width * 4 * height == width * height * 4
  {
  }

  lemma SizeIs(mask: nat, area4: nat)
    ensures SizeOf(mask, area4) == OFF_POINTER_DATA + Align4(mask) + area4
  {
  }

  lemma SmallIsExact(x: nat)
    requires x < 0x1_0000_0000
    ensures Wrap32(x) == x
  {
  }

  lemma EmptySize(width: u32, height: u32, is64: bool)
    requires width == 0 || height == 0
    ensures ReqSize(width, height, is64) == SIZEOF_REQUEST
  {
    assert width * height == 0;
    assert Wrap32(width + 7) / 8 * height == 0;
  }

  lemma SidesBounded(width: nat, height: nat)
    requires width <= MAX_SIDE && height <= MAX_SIDE
    ensures width * height <= MAX_SIDE * MAX_SIDE
  {
    assert width * height <= MAX_SIDE * height <= MAX_SIDE * MAX_SIDE;
  }
}
