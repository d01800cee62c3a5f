/** convolution/convolution.go: correlation of a gray image with a real
    kernel over the replicate-padded image, saturated to 8 bits. */
module Convolution {
  import opened Images
  import Utils
  import Padding

  /** `convolution.Kernel`: `content` holds `height` rows of `width` weights;
      the weight at column kx, row ky is `content[ky][kx]`, and 0 outside
      the table. */
  datatype Kernel = Kernel(content: seq<seq<real>>, width: int, height: int) {
    function At(kx: int, ky: int): real {
      if 0 <= ky < |content| && 0 <= kx < |content[ky]| then content[ky][kx] else 0.0
    }

    function Size(): Point { Point(width, height) }
  }

  /** The padded sample under kernel position (kx, ky) for output (x, y). */
  function Sample(padded: Gray, x: int, y: int, kx: int, ky: int): byte {
    padded.At(x + kx, y + ky)
  }

  /** One product of the inner loop: padded sample times weight. */
  function Term(padded: Gray, k: Kernel, x: int, y: int, kx: int, ky: int): real {
    (Sample(padded, x, y, kx, ky) as real) * k.At(kx, ky)
  }

  /** The products of kernel row ky for kx in [0, n), added left to right. */
  function RowSum(padded: Gray, k: Kernel, x: int, y: int, ky: int, n: int): real
    decreases n
  {
    if n <= 0 then 0.0 else RowSum(padded, k, x, y, ky, n - 1) + Term(padded, k, x, y, n - 1, ky)
  }

  /** The products of kernel rows [0, m), in the loop order of ConvolveGray. */
  function WindowSum(padded: Gray, k: Kernel, x: int, y: int, m: int): real
    decreases m
  {
    if m <= 0 then 0.0 else WindowSum(padded, k, x, y, m - 1) + RowSum(padded, k, x, y, m - 1, k.width)
  }

  /** The output sample at (x, y): the window sum clamped to [0, 255] and
      truncated. */
  function ConvolvedPixel(padded: Gray, k: Kernel, x: int, y: int): byte {
    Utils.Saturate(WindowSum(padded, k, x, y, k.height))
  }

  /** What ConvolveGray returns: the padding error, or an image of the
      source's size. */
  function Convolved(img: Gray, k: Kernel): Result<Gray> {
    match Padding.Padded(img, k.Size())
    case Failure(e) => Failure(e)
    case Success(padded) => Success(Tabulate(img.w, img.h, (x, y) => ConvolvedPixel(padded, k, x, y)))
  }

  /** The body of the per-pixel closure: the two kernel loops. */
  method KernelSum(padded: Gray, k: Kernel, x: int, y: int) returns (sum: real)
    ensures sum == WindowSum(padded, k, x, y, k.height)
  {
    sum := 0.0;
    var ky := 0;
    while ky < k.height
      invariant 0 <= ky && (ky == 0 || ky <= k.height)
      invariant sum == WindowSum(padded, k, x, y, ky)
    {
      var kx := 0;
      while kx < k.width
        invariant 0 <= kx && (kx == 0 || kx <= k.width)
        invariant sum == WindowSum(padded, k, x, y, ky) + RowSum(padded, k, x, y, ky, kx)
      {
        sum := sum + Term(padded, k, x, y, kx, ky);
        kx := kx + 1;
      }
      ky := ky + 1;
    }
  }

  method ConvolveGray(img: Gray, k: Kernel) returns (r: Result<Gray>)
    requires img.Valid()
    ensures r == Convolved(img, k)
    ensures r.Failure? <==> k.width < 0 || k.height < 0
    ensures r.Success? ==> r.value.Valid() && r.value.w == img.w && r.value.h == img.h
  {
    Padding.PaddedBounds(img, k.Size());
    var pr := Padding.Padding(img, k.Size());
    if pr.Failure? {
      return Failure(pr.error);
    }
    var padded := pr.value;
    var result := new byte[img.w, img.h]((i, j) => 0);
    var x := 0;
    while x < img.w
      invariant 0 <= x <= img.w
      invariant forall i, j :: 0 <= i < img.w && 0 <= j < img.h ==>
                  result[i, j] == if i < x then ConvolvedPixel(padded, k, i, j) else 0
    {
      var y := 0;
      while y < img.h
        invariant 0 <= y <= img.h
        invariant forall i, j :: 0 <= i < img.w && 0 <= j < img.h ==>
                    result[i, j] == if i < x || (i == x && j < y) then ConvolvedPixel(padded, k, i, j) else 0
      {
        var sum := KernelSum(padded, k, x, y);
        var clamped := Utils.Clamp(sum, 0.0, 255.0);
        result[x, y] := Utils.Truncate(clamped);
        y := y + 1;
      }
      x := x + 1;
    }
    var out := Freeze(result);
    GrayExt(out, Convolved(img, k).value);
    r := Success(out);
  }

  // Properties.

  /** ConvolveGray fails exactly when Padding does, on a negative kernel
      size, and otherwise keeps the source bounds. */
  lemma ConvolvedShape(img: Gray, k: Kernel)
    ensures Convolved(img, k).Failure? <==> k.width < 0 || k.height < 0
    ensures Convolved(img, k).Failure? ==> Convolved(img, k).error == NegativeSize
    ensures Convolved(img, k).Success? ==>
              Convolved(img, k).value.Valid() && Convolved(img, k).value.w == img.w && Convolved(img, k).value.h == img.h
  {
    Padding.PaddedBounds(img, k.Size());
  }

  /** Every sample the kernel loops read lies inside the padded image, so
      the zero that GrayAt returns outside the bounds never enters a sum. */
  lemma ReadsStayInPadded(img: Gray, k: Kernel, x: int, y: int, kx: int, ky: int)
    requires Padding.Padded(img, k.Size()).Success?
    requires img.InBounds(x, y) && 0 <= kx < k.width && 0 <= ky < k.height
    ensures Padding.Padded(img, k.Size()).value.InBounds(x + kx, y + ky)
  {
    Padding.PaddedBounds(img, k.Size());
  }

  /** The sum of all weights, in the same order. */
  function Total(k: Kernel): real {
    WindowTotal(k, k.height)
  }

  function RowTotal(k: Kernel, ky: int, n: int): real
    decreases n
  {
    if n <= 0 then 0.0 else RowTotal(k, ky, n - 1) + k.At(n - 1, ky)
  }

  function WindowTotal(k: Kernel, m: int): real
    decreases m
  {
    if m <= 0 then 0.0 else WindowTotal(k, m - 1) + RowTotal(k, m - 1, k.width)
  }

  /** Every sample of the window at (x, y) equals c. */
  predicate UniformWindow(padded: Gray, k: Kernel, x: int, y: int, c: byte) {
    forall kx, ky :: 0 <= kx < k.width && 0 <= ky < k.height ==> Sample(padded, x, y, kx, ky) == c
  }

  lemma {:induction false} RowSumUniform(padded: Gray, k: Kernel, x: int, y: int, ky: int, n: int, c: byte)
    requires UniformWindow(padded, k, x, y, c) && 0 <= ky < k.height && n <= k.width
    ensures RowSum(padded, k, x, y, ky, n) == (c as real) * RowTotal(k, ky, n)
    decreases n
  {
    if n > 0 {
      RowSumUniform(padded, k, x, y, ky, n - 1, c);
      assert Sample(padded, x, y, n - 1, ky) == c;
    }
  }

  /** Rows [0, m) each summing to c times their weight make a window that
      sums to c times the weight of those rows. */
  lemma {:induction false} WindowSumScaled(padded: Gray, k: Kernel, x: int, y: int, m: int, c: real)
    requires forall ky :: 0 <= ky < m ==> RowSum(padded, k, x, y, ky, k.width) == c * RowTotal(k, ky, k.width)
    ensures WindowSum(padded, k, x, y, m) == c * WindowTotal(k, m)
    decreases m
  {
    if m > 0 {
      WindowSumScaled(padded, k, x, y, m - 1, c);
      ScaledSum(c, WindowTotal(k, m - 1), RowTotal(k, m - 1, k.width));
    }
  }

  /** c * a + c * b == c * (a + b). */
  lemma ScaledSum(c: real, a: real, b: real)
    ensures c * a + c * b == c * (a + b)
  {
  }

  lemma WindowSumUniform(padded: Gray, k: Kernel, x: int, y: int, c: byte)
    requires UniformWindow(padded, k, x, y, c)
    ensures WindowSum(padded, k, x, y, k.height) == (c as real) * WindowTotal(k, k.height)
  {
    UniformRows(padded, k, x, y, c);
    WindowSumScaled(padded, k, x, y, k.height, c as real);
  }

  /** Every row of a uniform window sums to c times its weight. */
  lemma UniformRows(padded: Gray, k: Kernel, x: int, y: int, c: byte)
    requires UniformWindow(padded, k, x, y, c)
    ensures forall ky :: 0 <= ky < k.height ==> RowSum(padded, k, x, y, ky, k.width) == (c as real) * RowTotal(k, ky, k.width)
  {
    forall ky | 0 <= ky < k.height
      ensures RowSum(padded, k, x, y, ky, k.width) == (c as real) * RowTotal(k, ky, k.width)
    {
      RowSumUniform(padded, k, x, y, ky, k.width, c);
    }
  }

  /** A window of constant samples c sums to c times the kernel's total
      weight, so the output is that product saturated. */
  lemma UniformWindowGivesScaledTotal(padded: Gray, k: Kernel, x: int, y: int, c: byte)
    requires UniformWindow(padded, k, x, y, c)
    ensures WindowSum(padded, k, x, y, k.height) == (c as real) * Total(k)
    ensures ConvolvedPixel(padded, k, x, y) == Utils.Saturate((c as real) * Total(k))
  {
    WindowSumUniform(padded, k, x, y, c);
  }

  /** A uniform image convolved with an odd kernel whose top margin lies
      inside the image is uniform, at c times the total weight saturated:
      a zero-sum kernel gives black, a kernel of total 1 keeps c. */
  lemma UniformImage(img: Gray, k: Kernel, c: byte, x: int, y: int)
    requires img.Valid() && img.w >= 1 && k.width % 2 == 1 && k.height % 2 == 1
    requires k.width >= 1 && k.height >= 1 && k.height / 2 < img.h
    requires forall i, j :: img.InBounds(i, j) ==> img.At(i, j) == c
    requires img.InBounds(x, y)
    ensures Convolved(img, k).Success?
    ensures Convolved(img, k).value.At(x, y) == Utils.Saturate((c as real) * Total(k))
    ensures Total(k) == 0.0 ==> Convolved(img, k).value.At(x, y) == 0
    ensures Total(k) == 1.0 ==> Convolved(img, k).value.At(x, y) == c
  {
    Padding.UniformStaysUniform(img, k.Size(), c);
    Padding.PaddedBounds(img, k.Size());
    var padded := Padding.Padded(img, k.Size()).value;
    assert UniformWindow(padded, k, x, y, c) by {
      forall kx, ky | 0 <= kx < k.width && 0 <= ky < k.height
        ensures Sample(padded, x, y, kx, ky) == c
      {
        ReadsStayInPadded(img, k, x, y, kx, ky);
      }
    }
    UniformWindowGivesScaledTotal(padded, k, x, y, c);
    Utils.SaturateCases(0.0);
    Utils.SaturateCases(c as real);
  }

  /** The 1x1 kernel of weight 1 returns the image unchanged. */
  lemma IdentityKernel(img: Gray)
    requires img.Valid()
    ensures Convolved(img, Kernel([[1.0]], 1, 1)) == Success(img)
  {
    var k := Kernel([[1.0]], 1, 1);
    Padding.PaddedBounds(img, k.Size());
    forall x, y | img.InBounds(x, y)
      ensures Convolved(img, k).value.At(x, y) == img.At(x, y)
    {
      IdentityPixel(img, x, y);
    }
    GrayExt(Convolved(img, k).value, img);
  }

  /** IdentityKernel at one pixel: the window is the pixel itself. */
  lemma IdentityPixel(img: Gray, x: int, y: int)
    requires img.Valid() && img.InBounds(x, y)
    ensures Convolved(img, Kernel([[1.0]], 1, 1)).Success?
    ensures Convolved(img, Kernel([[1.0]], 1, 1)).value.At(x, y) == img.At(x, y)
  {
    var k := Kernel([[1.0]], 1, 1);
    Padding.PaddedBounds(img, k.Size());
    var padded := Padding.Padded(img, k.Size()).value;
    var p := Padding.CalculatePaddings(k.Size(), Padding.DefaultAnchor(k.Size())).value;
    Padding.InteriorCopied(img, p, x, y);
    SingleWeightWindow(padded, k, x, y, img.At(x, y));
    Utils.SaturateCases(img.At(x, y) as real);
  }

  /** The window of the 1x1 kernel of weight 1 is its one sample. */
  lemma SingleWeightWindow(padded: Gray, k: Kernel, x: int, y: int, v: byte)
    requires k == Kernel([[1.0]], 1, 1) && Sample(padded, x, y, 0, 0) == v
    ensures WindowSum(padded, k, x, y, 1) == v as real
  {
    assert RowSum(padded, k, x, y, 0, 1) == v as real;
  }
}
