/** edge_detection/canny.go: a second Canny whose gradient, suppression and
    threshold are package-local copies of gradient/gradient.go and
    edgeDetection/canny.go. Each entry point here is tied to the shared
    definition it copies; its pure helpers (isBetween, orientation,
    isBiggerThenNeighbours, checkNeighbours) are the same text as
    Gradient.IsBetween, Gradient.Orientation,
    EdgeDetection_Canny.IsBiggerThenNeighbours and
    EdgeDetection_Canny.CheckNeighbours and are not defined again. */
module Edge_Detection_Canny {
  import opened Images
  import Blurring
  import Gradient
  import EdgeDetection_Canny
  import Edge_Detection_Sobel

  /** gradientAndOrientation: the same grids and the same first error as
      Gradient.GradientAndOrientation. */
  method GradientAndOrientation(vertical: Gray, horizontal: Gray, hypot: (int, int) -> real, angle: (int, int) -> real)
    returns (r: Result<Gradient.GradientField>)
    ensures r == Gradient.GradientSpec(vertical, horizontal, hypot, angle)
  {
    r := Gradient.GradientAndOrientation(vertical, horizontal, hypot, angle);
  }

  method NonMaxSuppression(img: Gray, g: seq<seq<real>>, theta: seq<seq<real>>) returns (thinEdges: Gray)
    requires IsRealGrid(g, img.w, img.h) && IsRealGrid(theta, img.w, img.h)
    ensures thinEdges == EdgeDetection_Canny.Suppressed(img, g, theta)
  {
    thinEdges := EdgeDetection_Canny.NonMaxSuppression(img, g, theta);
  }

  method DoubleThreshold(img: Gray, g: seq<seq<real>>, upperBound: real) returns (res: Gray)
    requires IsRealGrid(g, img.w, img.h)
    ensures res == EdgeDetection_Canny.Thresholded(img, g, upperBound)
  {
    res := EdgeDetection_Canny.DoubleThreshold(img, g, upperBound);
  }

  /** This CannyGray computes the same result as edgeDetection's, error
      cases included. */
  method CannyGray(img: Gray, kernelSize: nat, gaussian: (real, real, int, int) -> real,
                   hypot: (int, int) -> real, angle: (int, int) -> real) returns (r: Result<Gray>)
    requires img.Valid()
    ensures r == EdgeDetection_Canny.Canny(img, kernelSize, gaussian, hypot, angle)
    ensures kernelSize == 0 ==> r == Failure(RadiusNotPositive)
  {
    EdgeDetection_Canny.CannyShape(img, kernelSize, gaussian, hypot, angle);
    var blurred := Blurring.GaussianBlurGray(img, kernelSize as real, 1.0, gaussian);
    if blurred.Failure? {
      return Failure(blurred.error);
    }
    var vertical := Edge_Detection_Sobel.VerticalSobelGray(blurred.value);
    var horizontal := Edge_Detection_Sobel.HorizontalSobelGray(blurred.value);
    var field := GradientAndOrientation(vertical.value, horizontal.value, hypot, angle);
    if field.Failure? {
      return Failure(field.error);
    }
    Gradient.GradientShape(vertical.value, horizontal.value, hypot, angle);
    var thinEdges := NonMaxSuppression(blurred.value, field.value.g, field.value.theta);
    var hist := DoubleThreshold(thinEdges, field.value.g, EdgeDetection_Canny.UpperBound);
    r := Success(hist);
  }
}
