/** blurring/gaussian.go: Gaussian blur as a convolution. The Gaussian
    weights themselves (exp, pi and the kernel's normalisation) are floating
    point and enter as a parameter `gaussian(radius, sigma, kx, ky)`: the
    normalised weight of kernel cell (kx, ky). */
module Blurring {
  import opened Images
  import Convolution

  /** math.Ceil on a real. */
  function Ceil(v: real): (r: int)
    ensures (r - 1) as real < v <= r as real
  {
    if v == v.Floor as real then v.Floor else v.Floor + 1
  }

  /** The side of the kernel generateGaussianKernel builds: int(ceil(2r + 1)). */
  function KernelLength(radius: real): int {
    Ceil(2.0 * radius + 1.0)
  }

  /** For a positive radius the side is at least 2 and lies in
      [2r + 1, 2r + 2); a whole radius n gives the odd side 2n + 1, while a
      half radius such as 2.5 gives the even side 6. */
  lemma KernelLengthBounds(radius: real)
    requires radius > 0.0
    ensures KernelLength(radius) >= 2
    ensures 2.0 * radius + 1.0 <= KernelLength(radius) as real < 2.0 * radius + 2.0
    ensures radius == radius.Floor as real ==> KernelLength(radius) == 2 * radius.Floor + 1
  {
  }

  /** generateGaussianKernel followed by Normalize. */
  function GaussianKernel(radius: real, sigma: real, gaussian: (real, real, int, int) -> real): (k: Convolution.Kernel)
    ensures k.width == k.height == KernelLength(radius)
    ensures forall kx, ky :: 0 <= kx < k.width && 0 <= ky < k.height ==>
              k.At(kx, ky) == gaussian(radius, sigma, kx, ky)
  {
    var n := KernelLength(radius);
    var len: nat := if n < 0 then 0 else n;
    Convolution.Kernel(seq(len, ky => seq(len, kx => gaussian(radius, sigma, kx, ky))), n, n)
  }

  /** What GaussianBlurGray returns. */
  function Blurred(img: Gray, radius: real, sigma: real, gaussian: (real, real, int, int) -> real): Result<Gray> {
    if radius <= 0.0 then Failure(RadiusNotPositive)
    else Convolution.Convolved(img, GaussianKernel(radius, sigma, gaussian))
  }

  method GaussianBlurGray(img: Gray, radius: real, sigma: real, gaussian: (real, real, int, int) -> real)
    returns (r: Result<Gray>)
    requires img.Valid()
    ensures r == Blurred(img, radius, sigma, gaussian)
    ensures r.Failure? <==> radius <= 0.0
    ensures r.Failure? ==> r.error == RadiusNotPositive
    ensures r.Success? ==> r.value.Valid() && r.value.w == img.w && r.value.h == img.h
  {
    if radius <= 0.0 {
      return Failure(RadiusNotPositive);
    }
    KernelLengthBounds(radius);
    r := Convolution.ConvolveGray(img, GaussianKernel(radius, sigma, gaussian));
  }

  /** With weights that sum to 1 and a whole radius smaller than the image
      height, blurring a uniform image returns it unchanged. */
  lemma BlurKeepsUniform(img: Gray, radius: real, sigma: real, gaussian: (real, real, int, int) -> real,
                         c: byte, x: int, y: int)
    requires img.Valid() && img.w >= 1 && radius > 0.0 && radius == radius.Floor as real
    requires radius.Floor < img.h
    requires Convolution.Total(GaussianKernel(radius, sigma, gaussian)) == 1.0
    requires forall i, j :: img.InBounds(i, j) ==> img.At(i, j) == c
    requires img.InBounds(x, y)
    ensures Blurred(img, radius, sigma, gaussian).Success?
    ensures Blurred(img, radius, sigma, gaussian).value.At(x, y) == c
  {
    KernelLengthBounds(radius);
    var k := GaussianKernel(radius, sigma, gaussian);
    assert k.height / 2 == radius.Floor;
    Convolution.UniformImage(img, k, c, x, y);
  }
}
