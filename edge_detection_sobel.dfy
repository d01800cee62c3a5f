/** edge_detection/sobel.go: a second copy of the Sobel kernels and
    SobelGray, in the package that also holds the second Canny. */
module Edge_Detection_Sobel {
  import opened Images
  import Utils
  import Convolution
  import EdgeDetection_Sobel

  const HorizontalKernel := Convolution.Kernel([[-1.0, 0.0, 1.0], [-2.0, 0.0, 2.0], [-1.0, 0.0, 1.0]], 3, 3)
  const VerticalKernel := Convolution.Kernel([[-1.0, -2.0, -1.0], [0.0, 0.0, 0.0], [1.0, 2.0, 1.0]], 3, 3)

  /** The copies hold the same weights as the edgeDetection package's. */
  lemma KernelsMatch()
    ensures HorizontalKernel == EdgeDetection_Sobel.HorizontalKernel
    ensures VerticalKernel == EdgeDetection_Sobel.VerticalKernel
  {
  }

  method HorizontalSobelGray(gray: Gray) returns (r: Result<Gray>)
    requires gray.Valid()
    ensures r == Convolution.Convolved(gray, EdgeDetection_Sobel.HorizontalKernel)
    ensures r.Success? && r.value.Valid() && r.value.w == gray.w && r.value.h == gray.h
  {
    r := Convolution.ConvolveGray(gray, HorizontalKernel);
  }

  method VerticalSobelGray(gray: Gray) returns (r: Result<Gray>)
    requires gray.Valid()
    ensures r == Convolution.Convolved(gray, EdgeDetection_Sobel.VerticalKernel)
    ensures r.Success? && r.value.Valid() && r.value.w == gray.w && r.value.h == gray.h
  {
    r := Convolution.ConvolveGray(gray, VerticalKernel);
  }

  /** This SobelGray computes the same image as edgeDetection's. */
  method SobelGray(img: Gray) returns (r: Result<Gray>)
    requires img.Valid()
    ensures r == EdgeDetection_Sobel.Sobel(img)
    ensures r.Success? && r.value.Valid() && r.value.w == img.w && r.value.h == img.h
  {
    var horizontal := HorizontalSobelGray(img);
    var vertical := VerticalSobelGray(img);
    r := Utils.AddGrayWeighted(horizontal.value, 0.5, vertical.value, 0.5);
  }
}
