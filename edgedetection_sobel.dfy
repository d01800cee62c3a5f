/** edgeDetection/sobel.go: the package's own Sobel kernels and SobelGray,
    the floor of the mean of the two Sobel responses. */
module EdgeDetection_Sobel {
  import opened Images
  import Utils
  import Convolution
  import Gradient

  const HorizontalKernel := Convolution.Kernel([[-1.0, 0.0, 1.0], [-2.0, 0.0, 2.0], [-1.0, 0.0, 1.0]], 3, 3)
  const VerticalKernel := Convolution.Kernel([[-1.0, -2.0, -1.0], [0.0, 0.0, 0.0], [1.0, 2.0, 1.0]], 3, 3)

  /** The package's kernels are the ones of the gradient package. */
  lemma KernelsMatchGradient()
    ensures HorizontalKernel == Gradient.HorizontalKernel && VerticalKernel == Gradient.VerticalKernel
  {
  }

  method HorizontalSobelGray(gray: Gray) returns (r: Result<Gray>)
    requires gray.Valid()
    ensures r == Convolution.Convolved(gray, HorizontalKernel)
    ensures r.Success? && r.value.Valid() && r.value.w == gray.w && r.value.h == gray.h
  {
    r := Convolution.ConvolveGray(gray, HorizontalKernel);
  }

  method VerticalSobelGray(gray: Gray) returns (r: Result<Gray>)
    requires gray.Valid()
    ensures r == Convolution.Convolved(gray, VerticalKernel)
    ensures r.Success? && r.value.Valid() && r.value.w == gray.w && r.value.h == gray.h
  {
    r := Convolution.ConvolveGray(gray, VerticalKernel);
  }

  /** What SobelGray returns. */
  function Sobel(img: Gray): Result<Gray> {
    Utils.Weighted(Convolution.Convolved(img, HorizontalKernel).GetOr(img), 0.5,
                   Convolution.Convolved(img, VerticalKernel).GetOr(img), 0.5)
  }

  method SobelGray(img: Gray) returns (r: Result<Gray>)
    requires img.Valid()
    ensures r == Sobel(img)
    ensures r.Success? && r.value.Valid() && r.value.w == img.w && r.value.h == img.h
  {
    var horizontal := HorizontalSobelGray(img);
    var vertical := VerticalSobelGray(img);
    r := Utils.AddGrayWeighted(horizontal.value, 0.5, vertical.value, 0.5);
  }

  /** Each SobelGray sample is the floor of the mean of the horizontal and
      vertical responses; the clamp never acts. */
  lemma SobelIsFloorMean(img: Gray, x: int, y: int)
    requires img.Valid() && img.InBounds(x, y)
    ensures Sobel(img).Success?
    ensures Sobel(img).value.At(x, y) ==
              (Convolution.Convolved(img, HorizontalKernel).value.At(x, y) +
               Convolution.Convolved(img, VerticalKernel).value.At(x, y)) / 2
  {
    Convolution.ConvolvedShape(img, HorizontalKernel);
    Convolution.ConvolvedShape(img, VerticalKernel);
    var h := Convolution.Convolved(img, HorizontalKernel).value;
    var v := Convolution.Convolved(img, VerticalKernel).value;
    Utils.HalfWeightsFloorMean(h.At(x, y), v.At(x, y));
  }

  /** A uniform image of height at least 2 has no edges. */
  lemma SobelOfUniformIsBlack(img: Gray, c: byte, x: int, y: int)
    requires img.Valid() && img.w >= 1 && img.h >= 2
    requires forall i, j :: img.InBounds(i, j) ==> img.At(i, j) == c
    requires img.InBounds(x, y)
    ensures Sobel(img).Success? && Sobel(img).value.At(x, y) == 0
  {
    SobelIsFloorMean(img, x, y);
    Gradient.SobelOfUniformIsBlack(img, c, x, y);
  }
}
