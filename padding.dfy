/** padding/padding.go: margins derived from a kernel size and anchor, and the
    replicate-padded copy of an image that ConvolveGray reads from. */
module Padding {
  import opened Images

  /** The four margins, in pixels. */
  datatype Paddings = Paddings(left: int, right: int, top: int, bottom: int)

  /** calculatePaddings: the checks on the kernel size and anchor, then the
      margins. An anchor equal to the kernel size is accepted and gives a
      margin of -1. */
  function CalculatePaddings(kernelSize: Point, anchor: Point): (r: Result<Paddings>)
    ensures r.Failure? <==> kernelSize.x < 0 || kernelSize.y < 0 || anchor.x < 0 || anchor.y < 0 ||
                            anchor.x > kernelSize.x || anchor.y > kernelSize.y
    ensures r.Failure? && (kernelSize.x < 0 || kernelSize.y < 0) ==> r.error == NegativeSize
    ensures r.Success? ==> Derived(r.value) && r.value.left == anchor.x && r.value.top == anchor.y
    ensures r.Success? ==> r.value.left + r.value.right == kernelSize.x - 1 &&
                           r.value.top + r.value.bottom == kernelSize.y - 1
  {
    if kernelSize.x < 0 || kernelSize.y < 0 then Failure(NegativeSize)
    else if anchor.x < 0 || anchor.y < 0 then Failure(NegativeAnchor)
    else if anchor.x > kernelSize.x || anchor.y > kernelSize.y then Failure(AnchorOutsideKernel)
    else Success(Paddings(anchor.x, kernelSize.x - anchor.x - 1, anchor.y, kernelSize.y - anchor.y - 1))
  }

  /** What every successful calculatePaddings result satisfies. */
  predicate Derived(p: Paddings) {
    p.left >= 0 && p.top >= 0 && p.right >= -1 && p.bottom >= -1
  }

  /** Go's `n / 2` on int, which truncates toward zero. */
  function GoHalf(n: int): int {
    if n >= 0 then n / 2 else -((-n) / 2)
  }

  /** The anchor Padding uses: the kernel centre (kW/2, kH/2). */
  function DefaultAnchor(kernelSize: Point): Point {
    Point(GoHalf(kernelSize.x), GoHalf(kernelSize.y))
  }

  /** With the centre anchor, calculatePaddings fails exactly on a negative
      kernel size; odd sizes give equal opposite margins, even sizes a right
      (bottom) margin one smaller than the left (top) one. */
  lemma CentreAnchorMargins(kernelSize: Point)
    ensures var r := CalculatePaddings(kernelSize, DefaultAnchor(kernelSize));
            (r.Failure? <==> kernelSize.x < 0 || kernelSize.y < 0) &&
            (r.Failure? ==> r.error == NegativeSize) &&
            (r.Success? && kernelSize.x % 2 == 1 ==> r.value.left == r.value.right) &&
            (r.Success? && kernelSize.y % 2 == 1 ==> r.value.top == r.value.bottom) &&
            (r.Success? && kernelSize.x % 2 == 0 ==> r.value.right == r.value.left - 1) &&
            (r.Success? && kernelSize.y % 2 == 0 ==> r.value.bottom == r.value.top - 1)
  {
  }

  /** A negative extent is taken as 0. It arises only as -1, for a kernel
      width (height) of 0 on an image of width (height) 0; Go's image.Rect
      then swaps the corners and gives the 1-wide (1-high) range [-1, 0). */
  function Extent(n: int): nat { if n < 0 then 0 else n }

  /** getRectangleFromPaddings: the padded bounds, as a size from (0,0). */
  function GetRectangleFromPaddings(p: Paddings, imgSize: Point): (r: Point)
    ensures r.x >= 0 && r.y >= 0
    ensures p.left + p.right + imgSize.x >= 0 ==> r.x == p.left + p.right + imgSize.x
    ensures p.top + p.bottom + imgSize.y >= 0 ==> r.y == p.top + p.bottom + imgSize.y
  {
    Point(Extent(p.left + p.right + imgSize.x), Extent(p.top + p.bottom + imgSize.y))
  }

  function PaddedWidth(img: Gray, p: Paddings): nat { Extent(p.left + p.right + img.w) }
  function PaddedHeight(img: Gray, p: Paddings): nat { Extent(p.top + p.bottom + img.h) }

  predicate InBuffer(img: Gray, p: Paddings, x: int, y: int) {
    0 <= x < PaddedWidth(img, p) && 0 <= y < PaddedHeight(img, p)
  }

  // The regions each loop of Padding writes, as the loops bound them.

  predicate InCopied(img: Gray, p: Paddings, x: int, y: int) {
    p.left <= x < img.w + p.right && p.top <= y < img.h + p.bottom
  }

  predicate InTopBand(img: Gray, p: Paddings, x: int, y: int) {
    p.left <= x < img.w + p.left && 0 <= y < p.top
  }

  predicate InBottomBand(img: Gray, p: Paddings, x: int, y: int) {
    p.left <= x < img.w + p.left && p.top + img.h <= y < img.h + p.top + p.bottom
  }

  predicate InLeftBand(img: Gray, p: Paddings, x: int, y: int) {
    0 <= x < p.left && 0 <= y < img.h + p.bottom + p.top
  }

  predicate InRightBand(img: Gray, p: Paddings, x: int, y: int) {
    img.w + p.left <= x < img.w + p.left + p.right && 0 <= y < img.h + p.bottom + p.top
  }

  // The buffer after each loop, 0 outside it (what `padded.At` reads there).

  function Copied(img: Gray, p: Paddings, x: int, y: int): byte {
    if InBuffer(img, p, x, y) && InCopied(img, p, x, y) then img.At(x - p.left, y - p.top) else 0
  }

  function TopFilled(img: Gray, p: Paddings, x: int, y: int): byte {
    if InBuffer(img, p, x, y) && InTopBand(img, p, x, y) then img.At(x - p.left, p.top)
    else Copied(img, p, x, y)
  }

  function BottomFilled(img: Gray, p: Paddings, x: int, y: int): byte {
    if InBuffer(img, p, x, y) && InBottomBand(img, p, x, y) then img.At(x - p.left, img.h - 1)
    else TopFilled(img, p, x, y)
  }

  function LeftFilled(img: Gray, p: Paddings, x: int, y: int): byte {
    if InBuffer(img, p, x, y) && InLeftBand(img, p, x, y) then BottomFilled(img, p, p.left, y)
    else BottomFilled(img, p, x, y)
  }

  /** The final sample of the padded image at (x, y). */
  function PaddedAt(img: Gray, p: Paddings, x: int, y: int): byte {
    if InBuffer(img, p, x, y) && InRightBand(img, p, x, y) then LeftFilled(img, p, img.w + p.left - 1, y)
    else LeftFilled(img, p, x, y)
  }

  /** The result Padding promises. */
  function Padded(img: Gray, kernelSize: Point): Result<Gray> {
    match CalculatePaddings(kernelSize, DefaultAnchor(kernelSize))
    case Failure(e) => Failure(e)
    case Success(p) =>
      Success(Tabulate(PaddedWidth(img, p), PaddedHeight(img, p), (x, y) => PaddedAt(img, p, x, y)))
  }

  /** padded.At(x, y) on a buffer: 0 outside it. */
  function BufferAt(buf: array2<byte>, x: int, y: int): byte
    reads buf
  {
    if 0 <= x < buf.Length0 && 0 <= y < buf.Length1 then buf[x, y] else 0
  }

  method Padding(img: Gray, kernelSize: Point) returns (r: Result<Gray>)
    requires img.Valid()
    ensures r == Padded(img, kernelSize)
  {
    var pr := CalculatePaddings(kernelSize, DefaultAnchor(kernelSize));
    if pr.Failure? {
      return Failure(pr.error);
    }
    var p := pr.value;
    var rect := GetRectangleFromPaddings(p, Point(img.w, img.h));
    var padded := new byte[rect.x, rect.y]((i, j) => 0);
    assert padded.Length0 == PaddedWidth(img, p) && padded.Length1 == PaddedHeight(img, p);

    CopyInterior(img, p, padded);

    TopPaddingReplicate(img, p, padded);
    assert forall i, j :: 0 <= i < padded.Length0 && 0 <= j < padded.Length1 ==>
             padded[i, j] == TopFilled(img, p, i, j);
    BottomPaddingReplicate(img, p, padded);
    assert forall i, j :: 0 <= i < padded.Length0 && 0 <= j < padded.Length1 ==>
             padded[i, j] == BottomFilled(img, p, i, j);
    LeftPaddingReplicate(img, p, padded);
    assert forall i, j :: 0 <= i < padded.Length0 && 0 <= j < padded.Length1 ==>
             padded[i, j] == LeftFilled(img, p, i, j);
    RightPaddingReplicate(img, p, padded);
    assert forall i, j :: 0 <= i < padded.Length0 && 0 <= j < padded.Length1 ==>
             padded[i, j] == PaddedAt(img, p, i, j);

    var out := Freeze(padded);
    GrayExt(out, Padded(img, kernelSize).value);
    r := Success(out);
  }

  /** The interior loop of Padding: source pixel (x - left, y - top) for x
      in [left, W + right) and y in [top, H + bottom), on a zeroed buffer. */
  method CopyInterior(img: Gray, p: Paddings, padded: array2<byte>)
    requires Derived(p)
    requires padded.Length0 == PaddedWidth(img, p) && padded.Length1 == PaddedHeight(img, p)
    requires forall i, j :: 0 <= i < padded.Length0 && 0 <= j < padded.Length1 ==> padded[i, j] == 0
    modifies padded
    ensures forall i, j :: 0 <= i < padded.Length0 && 0 <= j < padded.Length1 ==>
              padded[i, j] == Copied(img, p, i, j)
  {
    var x := p.left;
    while x < img.w + p.right
      invariant p.left <= x && (x == p.left || x <= img.w + p.right)
      invariant forall i, j :: 0 <= i < padded.Length0 && 0 <= j < padded.Length1 ==>
                  padded[i, j] == if i < x && InCopied(img, p, i, j) then img.At(i - p.left, j - p.top) else 0
    {
      var y := p.top;
      while y < img.h + p.bottom
        invariant p.top <= y && (y == p.top || y <= img.h + p.bottom)
        invariant forall i, j :: 0 <= i < padded.Length0 && 0 <= j < padded.Length1 ==>
                    padded[i, j] == if (i < x || (i == x && j < y)) && InCopied(img, p, i, j)
                                    then img.At(i - p.left, j - p.top) else 0
      {
        padded[x, y] := img.At(x - p.left, y - p.top);
        y := y + 1;
      }
      x := x + 1;
    }
  }

  /** topPaddingReplicate: every column of the top margin gets source row
      `PaddingTop` (row 0 is never read). */
  method TopPaddingReplicate(img: Gray, p: Paddings, padded: array2<byte>)
    requires Derived(p)
    requires padded.Length0 == PaddedWidth(img, p) && padded.Length1 == PaddedHeight(img, p)
    modifies padded
    ensures forall i, j :: 0 <= i < padded.Length0 && 0 <= j < padded.Length1 ==>
              padded[i, j] == if InTopBand(img, p, i, j) then img.At(i - p.left, p.top) else old(padded[i, j])
  {
    var x := p.left;
    while x < img.w + p.left
      invariant p.left <= x <= img.w + p.left
      invariant forall i, j :: 0 <= i < padded.Length0 && 0 <= j < padded.Length1 ==>
                  padded[i, j] == if i < x && InTopBand(img, p, i, j) then img.At(i - p.left, p.top)
                                  else old(padded[i, j])
    {
      var firstPixel := img.At(x - p.left, p.top);
      var y := 0;
      while y < p.top
        invariant 0 <= y <= p.top
        invariant forall i, j :: 0 <= i < padded.Length0 && 0 <= j < padded.Length1 ==>
                    padded[i, j] == if (i < x || (i == x && j < y)) && InTopBand(img, p, i, j)
                                    then img.At(i - p.left, p.top) else old(padded[i, j])
      {
        if x < padded.Length0 && y < padded.Length1 {
          padded[x, y] := firstPixel;
        }
        y := y + 1;
      }
      x := x + 1;
    }
  }

  /** bottomPaddingReplicate: every column of the bottom margin gets the last
      source row. */
  method BottomPaddingReplicate(img: Gray, p: Paddings, padded: array2<byte>)
    requires Derived(p)
    requires padded.Length0 == PaddedWidth(img, p) && padded.Length1 == PaddedHeight(img, p)
    modifies padded
    ensures forall i, j :: 0 <= i < padded.Length0 && 0 <= j < padded.Length1 ==>
              padded[i, j] == if InBottomBand(img, p, i, j) then img.At(i - p.left, img.h - 1) else old(padded[i, j])
  {
    var x := p.left;
    while x < img.w + p.left
      invariant p.left <= x <= img.w + p.left
      invariant forall i, j :: 0 <= i < padded.Length0 && 0 <= j < padded.Length1 ==>
                  padded[i, j] == if i < x && InBottomBand(img, p, i, j) then img.At(i - p.left, img.h - 1)
                                  else old(padded[i, j])
    {
      var lastPixel := img.At(x - p.left, img.h - 1);
      var y := p.top + img.h;
      while y < img.h + p.top + p.bottom
        invariant p.top + img.h <= y && (y == p.top + img.h || y <= img.h + p.top + p.bottom)
        invariant forall i, j :: 0 <= i < padded.Length0 && 0 <= j < padded.Length1 ==>
                    padded[i, j] == if (i < x || (i == x && j < y)) && InBottomBand(img, p, i, j)
                                    then img.At(i - p.left, img.h - 1) else old(padded[i, j])
      {
        if x < padded.Length0 && y < padded.Length1 {
          padded[x, y] := lastPixel;
        }
        y := y + 1;
      }
      x := x + 1;
    }
  }

  /** leftPaddingReplicate: every row of the left margin gets the padded
      image's column `PaddingLeft`, as the earlier loops left it. */
  method LeftPaddingReplicate(img: Gray, p: Paddings, padded: array2<byte>)
    requires Derived(p)
    requires padded.Length0 == PaddedWidth(img, p) && padded.Length1 == PaddedHeight(img, p)
    modifies padded
    ensures forall i, j :: 0 <= i < padded.Length0 && 0 <= j < padded.Length1 ==>
              padded[i, j] == if InLeftBand(img, p, i, j) then old(BufferAt(padded, p.left, j)) else old(padded[i, j])
  {
    var y := 0;
    while y < img.h + p.bottom + p.top
      invariant 0 <= y && (y == 0 || y <= img.h + p.bottom + p.top)
      invariant forall i, j :: 0 <= i < padded.Length0 && 0 <= j < padded.Length1 ==>
                  padded[i, j] == if j < y && InLeftBand(img, p, i, j) then old(BufferAt(padded, p.left, j))
                                  else old(padded[i, j])
    {
      var firstPixel := BufferAt(padded, p.left, y);
      var x := 0;
      while x < p.left
        invariant 0 <= x <= p.left
        invariant forall i, j :: 0 <= i < padded.Length0 && 0 <= j < padded.Length1 ==>
                    padded[i, j] == if (j < y || (j == y && i < x)) && InLeftBand(img, p, i, j)
                                    then old(BufferAt(padded, p.left, j)) else old(padded[i, j])
      {
        if x < padded.Length0 && y < padded.Length1 {
          padded[x, y] := firstPixel;
        }
        x := x + 1;
      }
      y := y + 1;
    }
  }

  /** rightPaddingReplicate: every row of the right margin gets the padded
      image's column `W + PaddingLeft - 1`, as the earlier loops left it. */
  method RightPaddingReplicate(img: Gray, p: Paddings, padded: array2<byte>)
    requires Derived(p)
    requires padded.Length0 == PaddedWidth(img, p) && padded.Length1 == PaddedHeight(img, p)
    modifies padded
    ensures forall i, j :: 0 <= i < padded.Length0 && 0 <= j < padded.Length1 ==>
              padded[i, j] == if InRightBand(img, p, i, j) then old(BufferAt(padded, img.w + p.left - 1, j))
                              else old(padded[i, j])
  {
    var y := 0;
    while y < img.h + p.bottom + p.top
      invariant 0 <= y && (y == 0 || y <= img.h + p.bottom + p.top)
      invariant forall i, j :: 0 <= i < padded.Length0 && 0 <= j < padded.Length1 ==>
                  padded[i, j] == if j < y && InRightBand(img, p, i, j)
                                  then old(BufferAt(padded, img.w + p.left - 1, j)) else old(padded[i, j])
    {
      var lastPixel := BufferAt(padded, img.w + p.left - 1, y);
      var x := img.w + p.left;
      while x < img.w + p.left + p.right
        invariant img.w + p.left <= x && (x == img.w + p.left || x <= img.w + p.left + p.right)
        invariant forall i, j :: 0 <= i < padded.Length0 && 0 <= j < padded.Length1 ==>
                    padded[i, j] == if (j < y || (j == y && i < x)) && InRightBand(img, p, i, j)
                                    then old(BufferAt(padded, img.w + p.left - 1, j)) else old(padded[i, j])
      {
        if x < padded.Length0 && y < padded.Length1 {
          padded[x, y] := lastPixel;
        }
        x := x + 1;
      }
      y := y + 1;
    }
  }

  // Properties of the padded image.

  /** The padded image has the kernel's extra extent added to the source
      bounds, and Padding fails exactly on a negative kernel size. */
  lemma PaddedBounds(img: Gray, kernelSize: Point)
    ensures Padded(img, kernelSize).Failure? <==> kernelSize.x < 0 || kernelSize.y < 0
    ensures Padded(img, kernelSize).Failure? ==> Padded(img, kernelSize).error == NegativeSize
    ensures Padded(img, kernelSize).Success? ==>
              var g := Padded(img, kernelSize).value;
              g.Valid() && g.w == Extent(img.w + kernelSize.x - 1) && g.h == Extent(img.h + kernelSize.y - 1)
  {
    CentreAnchorMargins(kernelSize);
  }

  /** Source pixel (x, y) lands at (x + left, y + top) unless a margin loop
      overwrites it, which for (x, y) inside the source happens only when the
      right (bottom) margin is smaller than the left (top) one. */
  lemma InteriorCopied(img: Gray, p: Paddings, x: int, y: int)
    requires Derived(p)
    requires img.InBounds(x, y)
    requires x + p.left < img.w + p.right && y + p.top < img.h + p.bottom
    ensures PaddedAt(img, p, x + p.left, y + p.top) == img.At(x, y)
  {
  }

  /** The top margin holds source row `top`, not row 0; when that row does
      not exist the margin is black. */
  lemma TopMarginRow(img: Gray, p: Paddings, x: int, y: int)
    requires Derived(p) && InBuffer(img, p, x, y) && InTopBand(img, p, x, y)
    ensures PaddedAt(img, p, x, y) == img.At(x - p.left, p.top)
    ensures p.top >= img.h ==> PaddedAt(img, p, x, y) == 0
  {
  }

  /** The bottom margin holds the last source row. */
  lemma BottomMarginRow(img: Gray, p: Paddings, x: int, y: int)
    requires Derived(p) && InBuffer(img, p, x, y) && InBottomBand(img, p, x, y)
    ensures PaddedAt(img, p, x, y) == img.At(x - p.left, img.h - 1)
  {
  }

  /** Every left-margin pixel repeats column `left` of the padded image, and
      every right-margin pixel repeats column `W + left - 1`. */
  lemma SideMarginsReplicate(img: Gray, p: Paddings, x: int, y: int)
    requires Derived(p) && img.w >= 1 && InBuffer(img, p, x, y)
    ensures InLeftBand(img, p, x, y) ==> PaddedAt(img, p, x, y) == PaddedAt(img, p, p.left, y)
    ensures InRightBand(img, p, x, y) ==> PaddedAt(img, p, x, y) == PaddedAt(img, p, img.w + p.left - 1, y)
  {
  }

  /** For an even kernel width (right margin one short) the interior loop
      stops a column early: the last source column is never copied, and the
      padded image reads 0 there. */
  lemma EvenWidthDropsLastColumn(img: Gray, p: Paddings, y: int)
    requires Derived(p) && p.right == p.left - 1 && img.w >= 1
    requires p.top <= y < p.top + img.h
    ensures PaddedAt(img, p, img.w - 1 + p.left, y) == 0
  {
  }

  /** Clamping of a column index to [0, W-1]. */
  function ClampIndex(v: int, hi: int): int {
    if v < 0 then 0 else if v > hi then hi else v
  }

  /** The source row that padded row y shows for an odd kernel height with
      margin `t`: row t above the image, the last row below it. */
  function SourceRow(img: Gray, t: int, y: int): int {
    if y < t then t else if y >= t + img.h then img.h - 1 else y - t
  }

  /** Reference form for odd kernels: each padded pixel is the source pixel
      at the clamped column and the row SourceRow picks. */
  lemma OddKernelClosedForm(img: Gray, p: Paddings, x: int, y: int)
    requires Derived(p) && p.left == p.right && p.top == p.bottom && img.w >= 1
    requires InBuffer(img, p, x, y)
    ensures PaddedAt(img, p, x, y) == img.At(ClampIndex(x - p.left, img.w - 1), SourceRow(img, p.top, y))
  {
  }

  /** A uniform image stays uniform under padding for any odd kernel whose
      top margin is inside the image. */
  lemma UniformStaysUniform(img: Gray, kernelSize: Point, c: byte)
    requires img.Valid() && img.w >= 1 && kernelSize.x % 2 == 1 && kernelSize.y % 2 == 1
    requires kernelSize.x >= 1 && kernelSize.y >= 1 && kernelSize.y / 2 < img.h
    requires forall x, y :: img.InBounds(x, y) ==> img.At(x, y) == c
    ensures Padded(img, kernelSize).Success?
    ensures var g := Padded(img, kernelSize).value;
            forall x, y :: g.InBounds(x, y) ==> g.At(x, y) == c
  {
    CentreAnchorMargins(kernelSize);
    var p := CalculatePaddings(kernelSize, DefaultAnchor(kernelSize)).value;
    var g := Padded(img, kernelSize).value;
    forall x, y | g.InBounds(x, y)
      ensures g.At(x, y) == c
    {
      OddKernelClosedForm(img, p, x, y);
    }
  }
}
