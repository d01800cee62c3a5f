/** edgeDetection/canny.go: the Canny back end (non-maximum suppression
    along the quantised gradient direction, then a single upper threshold)
    and CannyGray, which chains blur, Sobel, gradient and the back end. */
module EdgeDetection_Canny {
  import opened Images
  import Convolution
  import Blurring
  import Gradient

  /** The bound CannyGray passes to doubleThreshold. */
  const UpperBound: real := 100.0

  /** The two grid cells compared against (x, y) for a direction. */
  datatype Neighbours = Pair(first: Point, second: Point) | NoPair

  /** The switch of nonMaxSuppression; a direction it has no case for
      selects nothing. */
  function DirectionNeighbours(t: real, x: int, y: int): Neighbours {
    if t == 45.0 then Pair(Point(x + 1, y - 1), Point(x - 1, y + 1))
    else if t == 90.0 then Pair(Point(x + 1, y), Point(x - 1, y))
    else if t == 135.0 then Pair(Point(x - 1, y - 1), Point(x + 1, y + 1))
    else if t == 0.0 then Pair(Point(x, y + 1), Point(x, y - 1))
    else NoPair
  }

  /** isBiggerThenNeighbours: strictly above both. */
  predicate IsBiggerThenNeighbours(v: real, n1: real, n2: real) {
    v > n1 && v > n2
  }

  /** The cell g[p.x][p.y] of a grid, 0 outside it. */
  function GridAt(g: seq<seq<real>>, p: Point): real {
    if 0 <= p.x < |g| && 0 <= p.y < |g[p.x]| then g[p.x][p.y] else 0.0
  }

  predicate IsInterior(w: int, h: int, x: int, y: int) {
    x > 0 && x < w - 1 && y > 0 && y < h - 1
  }

  /** nonMaxSuppression marks (x, y): inside the 1-pixel border and a strict
      maximum against the two neighbours its direction selects. */
  predicate KeptByNms(img: Gray, g: seq<seq<real>>, theta: seq<seq<real>>, x: int, y: int) {
    IsInterior(img.w, img.h, x, y) &&
    match DirectionNeighbours(GridAt(theta, Point(x, y)), x, y)
    case NoPair => false
    case Pair(a, b) => IsBiggerThenNeighbours(GridAt(g, Point(x, y)), GridAt(g, a), GridAt(g, b))
  }

  /** What nonMaxSuppression returns: a fresh image with the bounds of
      `img`, 255 where KeptByNms holds and 0 elsewhere. */
  function Suppressed(img: Gray, g: seq<seq<real>>, theta: seq<seq<real>>): Gray {
    Tabulate(img.w, img.h, (x, y) => if KeptByNms(img, g, theta, x, y) then 255 else 0)
  }

  method NonMaxSuppression(img: Gray, g: seq<seq<real>>, theta: seq<seq<real>>) returns (thinEdges: Gray)
    requires IsRealGrid(g, img.w, img.h) && IsRealGrid(theta, img.w, img.h)
    ensures thinEdges == Suppressed(img, g, theta)
  {
    var buf := new byte[img.w, img.h]((i, j) => 0);
    var x := 0;
    while x < img.w
      invariant 0 <= x <= img.w
      invariant forall i, j :: 0 <= i < img.w && 0 <= j < img.h ==>
                  buf[i, j] == if i < x && KeptByNms(img, g, theta, i, j) then 255 else 0
    {
      var y := 0;
      while y < img.h
        invariant 0 <= y <= img.h
        invariant forall i, j :: 0 <= i < img.w && 0 <= j < img.h ==>
                    buf[i, j] == if (i < x || (i == x && j < y)) && KeptByNms(img, g, theta, i, j) then 255 else 0
      {
        var isLocalMax := false;
        if x > 0 && x < img.w - 1 && y > 0 && y < img.h - 1 {
          var t := theta[x][y];
          if t == 45.0 {
            isLocalMax := IsBiggerThenNeighbours(g[x][y], g[x + 1][y - 1], g[x - 1][y + 1]);
          } else if t == 90.0 {
            isLocalMax := IsBiggerThenNeighbours(g[x][y], g[x + 1][y], g[x - 1][y]);
          } else if t == 135.0 {
            isLocalMax := IsBiggerThenNeighbours(g[x][y], g[x - 1][y - 1], g[x + 1][y + 1]);
          } else if t == 0.0 {
            isLocalMax := IsBiggerThenNeighbours(g[x][y], g[x][y + 1], g[x][y - 1]);
          }
        }
        assert isLocalMax == KeptByNms(img, g, theta, x, y);
        if isLocalMax {
          buf[x, y] := 255;
        }
        y := y + 1;
      }
      x := x + 1;
    }
    thinEdges := Freeze(buf);
    GrayExt(thinEdges, Suppressed(img, g, theta));
  }

  /** The suppressed image is binary and black on its 1-pixel border. */
  lemma SuppressedBinaryWithBlackBorder(img: Gray, g: seq<seq<real>>, theta: seq<seq<real>>, x: int, y: int)
    requires img.InBounds(x, y)
    ensures Suppressed(img, g, theta).At(x, y) in {0, 255}
    ensures x == 0 || y == 0 || x == img.w - 1 || y == img.h - 1 ==> Suppressed(img, g, theta).At(x, y) == 0
  {
  }

  /** Two cells that are each other's neighbour along a shared direction
      cannot both survive: the comparison is strict both ways. */
  lemma SuppressionThinsEdges(img: Gray, g: seq<seq<real>>, theta: seq<seq<real>>, x: int, y: int)
    requires img.InBounds(x, y) && Suppressed(img, g, theta).At(x, y) == 255
    requires DirectionNeighbours(GridAt(theta, Point(x, y)), x, y).Pair?
    ensures var n := DirectionNeighbours(GridAt(theta, Point(x, y)), x, y);
            (GridAt(theta, n.first) == GridAt(theta, Point(x, y)) && img.InBounds(n.first.x, n.first.y) ==>
               Suppressed(img, g, theta).At(n.first.x, n.first.y) == 0) &&
            (GridAt(theta, n.second) == GridAt(theta, Point(x, y)) && img.InBounds(n.second.x, n.second.y) ==>
               Suppressed(img, g, theta).At(n.second.x, n.second.y) == 0)
  {
    var t := GridAt(theta, Point(x, y));
    var n := DirectionNeighbours(t, x, y);
    assert KeptByNms(img, g, theta, x, y);
    if GridAt(theta, n.first) == t && img.InBounds(n.first.x, n.first.y) {
      var m := DirectionNeighbours(t, n.first.x, n.first.y);
      assert m.Pair? && (m.first == Point(x, y) || m.second == Point(x, y));
      assert !KeptByNms(img, g, theta, n.first.x, n.first.y);
    }
    if GridAt(theta, n.second) == t && img.InBounds(n.second.x, n.second.y) {
      var m := DirectionNeighbours(t, n.second.x, n.second.y);
      assert m.Pair? && (m.first == Point(x, y) || m.second == Point(x, y));
      assert !KeptByNms(img, g, theta, n.second.x, n.second.y);
    }
  }

  /** g at one of the 8 cells around (x, y). */
  function AroundAt(g: seq<seq<real>>, x: int, y: int, dx: int, dy: int): real {
    GridAt(g, Point(x + dx, y + dy))
  }

  /** An interior cell with a quantised direction whose magnitude beats all
      8 cells around it is kept, whatever the direction. */
  lemma StrictPeakIsKept(img: Gray, g: seq<seq<real>>, theta: seq<seq<real>>, x: int, y: int)
    requires IsInterior(img.w, img.h, x, y)
    requires GridAt(theta, Point(x, y)) in {0.0, 45.0, 90.0, 135.0}
    requires forall dx, dy :: -1 <= dx <= 1 && -1 <= dy <= 1 && (dx != 0 || dy != 0) ==>
               GridAt(g, Point(x, y)) > AroundAt(g, x, y, dx, dy)
    ensures Suppressed(img, g, theta).At(x, y) == 255
  {
    assert GridAt(g, Point(x, y)) > AroundAt(g, x, y, 1, -1) && GridAt(g, Point(x, y)) > AroundAt(g, x, y, -1, 1);
    assert GridAt(g, Point(x, y)) > AroundAt(g, x, y, 1, 0) && GridAt(g, Point(x, y)) > AroundAt(g, x, y, -1, 0);
    assert GridAt(g, Point(x, y)) > AroundAt(g, x, y, -1, -1) && GridAt(g, Point(x, y)) > AroundAt(g, x, y, 1, 1);
    assert GridAt(g, Point(x, y)) > AroundAt(g, x, y, 0, 1) && GridAt(g, Point(x, y)) > AroundAt(g, x, y, 0, -1);
    assert KeptByNms(img, g, theta, x, y);
  }

  /** checkNeighbours: some of the 8 cells around (x, y) is 255. */
  predicate CheckNeighbours(x: int, y: int, img: Gray) {
    img.At(x - 1, y - 1) == 255 || img.At(x - 1, y) == 255 ||
    img.At(x - 1, y + 1) == 255 || img.At(x, y - 1) == 255 ||
    img.At(x, y + 1) == 255 || img.At(x + 1, y - 1) == 255 ||
    img.At(x + 1, y) == 255 || img.At(x + 1, y + 1) == 255
  }

  function NeighbourAt(img: Gray, x: int, y: int, dx: int, dy: int): byte {
    img.At(x + dx, y + dy)
  }

  /** checkNeighbours holds iff one of the 8 offsets around (x, y), the
      centre excluded, reads 255; cells outside the image read 0 and never
      count. */
  lemma CheckNeighboursIff(x: int, y: int, img: Gray)
    ensures CheckNeighbours(x, y, img) <==>
              exists dx, dy :: -1 <= dx <= 1 && -1 <= dy <= 1 && (dx != 0 || dy != 0) &&
                NeighbourAt(img, x, y, dx, dy) == 255
  {
    if CheckNeighbours(x, y, img) {
      if img.At(x - 1, y - 1) == 255 { assert NeighbourAt(img, x, y, -1, -1) == 255; }
      else if img.At(x - 1, y) == 255 { assert NeighbourAt(img, x, y, -1, 0) == 255; }
      else if img.At(x - 1, y + 1) == 255 { assert NeighbourAt(img, x, y, -1, 1) == 255; }
      else if img.At(x, y - 1) == 255 { assert NeighbourAt(img, x, y, 0, -1) == 255; }
      else if img.At(x, y + 1) == 255 { assert NeighbourAt(img, x, y, 0, 1) == 255; }
      else if img.At(x + 1, y - 1) == 255 { assert NeighbourAt(img, x, y, 1, -1) == 255; }
      else if img.At(x + 1, y) == 255 { assert NeighbourAt(img, x, y, 1, 0) == 255; }
      else { assert NeighbourAt(img, x, y, 1, 1) == 255; }
    }
  }

  /** doubleThreshold at (x, y): 255 where the input is 255 and g is
      strictly above the bound; the fresh result is 0 everywhere else. */
  function ThresholdPixel(img: Gray, g: seq<seq<real>>, upperBound: real, x: int, y: int): byte {
    if img.At(x, y) == 255 && GridAt(g, Point(x, y)) > upperBound then 255 else 0
  }

  function Thresholded(img: Gray, g: seq<seq<real>>, upperBound: real): Gray {
    Tabulate(img.w, img.h, (x, y) => ThresholdPixel(img, g, upperBound, x, y))
  }

  method DoubleThreshold(img: Gray, g: seq<seq<real>>, upperBound: real) returns (res: Gray)
    requires IsRealGrid(g, img.w, img.h)
    ensures res == Thresholded(img, g, upperBound)
  {
    var buf := new byte[img.w, img.h]((i, j) => 0);
    var x := 0;
    while x < img.w
      invariant 0 <= x <= img.w
      invariant forall i, j :: 0 <= i < img.w && 0 <= j < img.h ==>
                  buf[i, j] == if i < x then ThresholdPixel(img, g, upperBound, i, j) else 0
    {
      var y := 0;
      while y < img.h
        invariant 0 <= y <= img.h
        invariant forall i, j :: 0 <= i < img.w && 0 <= j < img.h ==>
                    buf[i, j] == if i < x || (i == x && j < y) then ThresholdPixel(img, g, upperBound, i, j) else 0
      {
        var p := img.At(x, y);
        if p == 255 {
          if g[x][y] > upperBound {
            buf[x, y] := 255;
          } else {
            buf[x, y] := 0;
          }
        }
        y := y + 1;
      }
      x := x + 1;
    }
    res := Freeze(buf);
    GrayExt(res, Thresholded(img, g, upperBound));
  }

  /** The threshold output is binary, its edges are a subset of the input's,
      and a magnitude equal to the bound is dropped. */
  lemma ThresholdKeepsSubset(img: Gray, g: seq<seq<real>>, upperBound: real, x: int, y: int)
    requires img.InBounds(x, y)
    ensures Thresholded(img, g, upperBound).At(x, y) in {0, 255}
    ensures Thresholded(img, g, upperBound).At(x, y) == 255 ==> img.At(x, y) == 255
    ensures GridAt(g, Point(x, y)) == upperBound ==> Thresholded(img, g, upperBound).At(x, y) == 0
  {
  }

  /** Thresholding twice with the same bound changes nothing more. */
  lemma ThresholdIdempotent(img: Gray, g: seq<seq<real>>, upperBound: real)
    requires img.Valid()
    ensures Thresholded(Thresholded(img, g, upperBound), g, upperBound) == Thresholded(img, g, upperBound)
  {
    var once := Thresholded(img, g, upperBound);
    forall x, y | 0 <= x < img.w && 0 <= y < img.h
      ensures Thresholded(once, g, upperBound).At(x, y) == once.At(x, y)
    {
    }
    GrayExt(Thresholded(once, g, upperBound), once);
  }

  /** A higher bound keeps a subset of the edges a lower one keeps. */
  lemma ThresholdMonotone(img: Gray, g: seq<seq<real>>, lower: real, upper: real, x: int, y: int)
    requires lower <= upper && img.InBounds(x, y)
    ensures Thresholded(img, g, upper).At(x, y) == 255 ==> Thresholded(img, g, lower).At(x, y) == 255
  {
  }

  /** What CannyGray returns: the blur error for kernelSize 0, an orientation
      error, or the thresholded suppression of the blurred image. */
  function Canny(img: Gray, kernelSize: nat, gaussian: (real, real, int, int) -> real,
                 hypot: (int, int) -> real, angle: (int, int) -> real): Result<Gray>
  {
    match Blurring.Blurred(img, kernelSize as real, 1.0, gaussian)
    case Failure(e) => Failure(e)
    case Success(blurred) =>
      var vertical := Convolution.Convolved(blurred, Gradient.VerticalKernel).GetOr(blurred);
      var horizontal := Convolution.Convolved(blurred, Gradient.HorizontalKernel).GetOr(blurred);
      match Gradient.GradientSpec(vertical, horizontal, hypot, angle)
      case Failure(e) => Failure(e)
      case Success(f) => Success(Thresholded(Suppressed(blurred, f.g, f.theta), f.g, UpperBound))
  }

  method CannyGray(img: Gray, kernelSize: nat, gaussian: (real, real, int, int) -> real,
                   hypot: (int, int) -> real, angle: (int, int) -> real) returns (r: Result<Gray>)
    requires img.Valid()
    ensures r == Canny(img, kernelSize, gaussian, hypot, angle)
  {
    var blurred := Blurring.GaussianBlurGray(img, kernelSize as real, 1.0, gaussian);
    if blurred.Failure? {
      return Failure(blurred.error);
    }
    var vertical := Gradient.VerticalSobelGray(blurred.value);
    var horizontal := Gradient.HorizontalSobelGray(blurred.value);
    var field := Gradient.GradientAndOrientation(vertical.value, horizontal.value, hypot, angle);
    if field.Failure? {
      return Failure(field.error);
    }
    Gradient.GradientShape(vertical.value, horizontal.value, hypot, angle);
    var thinEdges := NonMaxSuppression(blurred.value, field.value.g, field.value.theta);
    var hist := DoubleThreshold(thinEdges, field.value.g, UpperBound);
    r := Success(hist);
  }

  /** CannyGray fails with the blur's error exactly for kernelSize 0 when
      the angles are in range; its result has the input's bounds, is binary
      and black on the border. */
  lemma CannyShape(img: Gray, kernelSize: nat, gaussian: (real, real, int, int) -> real,
                   hypot: (int, int) -> real, angle: (int, int) -> real)
    requires img.Valid()
    ensures kernelSize == 0 ==> Canny(img, kernelSize, gaussian, hypot, angle) == Failure(RadiusNotPositive)
    ensures kernelSize > 0 && (forall a, b :: 0 <= a < 256 && 0 <= b < 256 ==> 0.0 <= angle(a, b) <= 90.0) ==>
              Canny(img, kernelSize, gaussian, hypot, angle).Success?
    ensures var r := Canny(img, kernelSize, gaussian, hypot, angle);
            r.Success? ==>
              (r.value.Valid() && r.value.w == img.w && r.value.h == img.h &&
               forall x, y :: r.value.InBounds(x, y) ==>
                 (r.value.At(x, y) in {0, 255} &&
                  (x == 0 || y == 0 || x == img.w - 1 || y == img.h - 1 ==> r.value.At(x, y) == 0)))
  {
    var b := Blurring.Blurred(img, kernelSize as real, 1.0, gaussian);
    if b.Success? {
      Convolution.ConvolvedShape(img, Blurring.GaussianKernel(kernelSize as real, 1.0, gaussian));
      Convolution.ConvolvedShape(b.value, Gradient.VerticalKernel);
      Convolution.ConvolvedShape(b.value, Gradient.HorizontalKernel);
      var vertical := Convolution.Convolved(b.value, Gradient.VerticalKernel).value;
      var horizontal := Convolution.Convolved(b.value, Gradient.HorizontalKernel).value;
      Gradient.GradientShape(vertical, horizontal, hypot, angle);
      var f := Gradient.GradientSpec(vertical, horizontal, hypot, angle);
      if f.Success? {
        var thin := Suppressed(b.value, f.value.g, f.value.theta);
        var r := Thresholded(thin, f.value.g, UpperBound);
        forall x, y | r.InBounds(x, y)
          ensures r.At(x, y) in {0, 255}
          ensures x == 0 || y == 0 || x == img.w - 1 || y == img.h - 1 ==> r.At(x, y) == 0
        {
          ThresholdKeepsSubset(thin, f.value.g, UpperBound, x, y);
          SuppressedBinaryWithBlackBorder(b.value, f.value.g, f.value.theta, x, y);
        }
      }
    }
  }
}
