/** gradient/gradient.go: the 3x3 Sobel kernels, the per-pixel gradient
    magnitude and its direction quantised to 0, 45, 90 or 135 degrees.

    math.Hypot and math.Atan2 are floating point; they enter as parameters
    `hypot(px, py)` and `angle(px, py)`, the latter standing for
    `180 * atan2(px, py) / pi`, the value orientation compares in degrees. */
module Gradient {
  import opened Images
  import Convolution
  import Padding
  import Utils

  const HorizontalKernel := Convolution.Kernel([[-1.0, 0.0, 1.0], [-2.0, 0.0, 2.0], [-1.0, 0.0, 1.0]], 3, 3)
  const VerticalKernel := Convolution.Kernel([[-1.0, -2.0, -1.0], [0.0, 0.0, 0.0], [1.0, 2.0, 1.0]], 3, 3)

  /** The vertical kernel is the transpose of the horizontal one, and both
      weigh to zero. */
  lemma SobelKernelShape()
    ensures forall kx, ky :: 0 <= kx < 3 && 0 <= ky < 3 ==> VerticalKernel.At(kx, ky) == HorizontalKernel.At(ky, kx)
    ensures Convolution.Total(HorizontalKernel) == 0.0
    ensures Convolution.Total(VerticalKernel) == 0.0
  {
    assert Convolution.RowTotal(HorizontalKernel, 0, 3) == 0.0;
    assert Convolution.RowTotal(HorizontalKernel, 1, 3) == 0.0;
    assert Convolution.RowTotal(HorizontalKernel, 2, 3) == 0.0;
    assert Convolution.RowTotal(VerticalKernel, 0, 3) == -4.0;
    assert Convolution.RowTotal(VerticalKernel, 1, 3) == 0.0;
    assert Convolution.RowTotal(VerticalKernel, 2, 3) == 4.0;
  }

  method HorizontalSobelGray(gray: Gray) returns (r: Result<Gray>)
    requires gray.Valid()
    ensures r == Convolution.Convolved(gray, HorizontalKernel)
    ensures r.Success? && r.value.Valid() && r.value.w == gray.w && r.value.h == gray.h
  {
    r := Convolution.ConvolveGray(gray, HorizontalKernel);
  }

  method VerticalSobelGray(gray: Gray) returns (r: Result<Gray>)
    requires gray.Valid()
    ensures r == Convolution.Convolved(gray, VerticalKernel)
    ensures r.Success? && r.value.Valid() && r.value.w == gray.w && r.value.h == gray.h
  {
    r := Convolution.ConvolveGray(gray, VerticalKernel);
  }

  /** A constant image one row high is not black under the vertical kernel:
      the top margin copies row 1, which does not exist and reads 0, while the
      bottom margin repeats row 0, so the response is 4c saturated. */
  lemma FlatStripVerticalResponse(img: Gray, c: byte, x: int)
    requires img.Valid() && img.h == 1 && 0 <= x < img.w
    requires forall i, j :: img.InBounds(i, j) ==> img.At(i, j) == c
    ensures Convolution.Convolved(img, VerticalKernel).Success?
    ensures Convolution.Convolved(img, VerticalKernel).value.At(x, 0) == Utils.Saturate(4.0 * c as real)
    ensures c > 0 ==> Convolution.Convolved(img, VerticalKernel).value.At(x, 0) != 0
  {
    StripPadded(img);
    var padded := Padding.Padded(img, VerticalKernel.Size()).value;
    StripWindowRows(img, padded, c, x);
    StripWindowSum(padded, c, x);
    Utils.SaturateCases(4.0 * c as real);
  }

  /** The 3x3 kernel's centre anchor gives margins of 1 on every side. */
  lemma StripPaddings()
    ensures Padding.CalculatePaddings(Point(3, 3), Padding.DefaultAnchor(Point(3, 3))) == Success(Padding.Paddings(1, 1, 1, 1))
  {
    assert Padding.GoHalf(3) == 1;
    assert Padding.DefaultAnchor(Point(3, 3)) == Point(1, 1);
  }

  /** Padding for a 3x3 kernel adds one pixel on every side. */
  lemma StripPadded(img: Gray)
    requires img.Valid()
    ensures Padding.Padded(img, Point(3, 3)).Success?
    ensures var g := Padding.Padded(img, Point(3, 3)).value;
            g.Valid() && g.w == img.w + 2 && g.h == img.h + 2 &&
            forall i, j :: g.InBounds(i, j) ==> g.At(i, j) == Padding.PaddedAt(img, Padding.Paddings(1, 1, 1, 1), i, j)
  {
    StripPaddings();
  }

  /** The three padded rows the vertical kernel reads over a one-row image:
      0 above it, then c twice. */
  lemma StripWindowRows(img: Gray, padded: Gray, c: byte, x: int)
    requires img.Valid() && img.h == 1 && 0 <= x < img.w
    requires forall i, j :: img.InBounds(i, j) ==> img.At(i, j) == c
    requires padded.w == img.w + 2 && padded.h == 3
    requires forall i, j :: padded.InBounds(i, j) ==> padded.At(i, j) == Padding.PaddedAt(img, Padding.Paddings(1, 1, 1, 1), i, j)
    ensures forall kx, ky :: 0 <= kx < 3 && 0 <= ky < 3 ==>
              Convolution.Sample(padded, x, 0, kx, ky) == if ky == 0 then 0 else c
  {
    forall kx, ky | 0 <= kx < 3 && 0 <= ky < 3
      ensures Convolution.Sample(padded, x, 0, kx, ky) == if ky == 0 then 0 else c
    {
      Padding.OddKernelClosedForm(img, Padding.Paddings(1, 1, 1, 1), x + kx, ky);
    }
  }

  /** Rows 0, c, c under the vertical kernel sum to 4c. */
  lemma StripWindowSum(padded: Gray, c: byte, x: int)
    requires forall kx, ky :: 0 <= kx < 3 && 0 <= ky < 3 ==>
               Convolution.Sample(padded, x, 0, kx, ky) == if ky == 0 then 0 else c
    ensures Convolution.WindowSum(padded, VerticalKernel, x, 0, 3) == 4.0 * c as real
  {
    var k := VerticalKernel;
    assert Convolution.RowSum(padded, k, x, 0, 0, 3) == 0.0 by {
      assert Convolution.Sample(padded, x, 0, 0, 0) == 0 && Convolution.Sample(padded, x, 0, 1, 0) == 0;
      assert Convolution.Sample(padded, x, 0, 2, 0) == 0;
    }
    assert Convolution.RowSum(padded, k, x, 0, 1, 3) == 0.0;
    assert Convolution.RowSum(padded, k, x, 0, 2, 3) == 4.0 * c as real by {
      assert Convolution.Sample(padded, x, 0, 0, 2) == c && Convolution.Sample(padded, x, 0, 1, 2) == c;
      assert Convolution.Sample(padded, x, 0, 2, 2) == c;
    }
  }

  /** Both Sobel responses of a uniform image are black wherever the top
      margin row exists (height at least 2). */
  lemma SobelOfUniformIsBlack(img: Gray, c: byte, x: int, y: int)
    requires img.Valid() && img.w >= 1 && img.h >= 2
    requires forall i, j :: img.InBounds(i, j) ==> img.At(i, j) == c
    requires img.InBounds(x, y)
    ensures Convolution.Convolved(img, HorizontalKernel).value.At(x, y) == 0
    ensures Convolution.Convolved(img, VerticalKernel).value.At(x, y) == 0
  {
    SobelKernelShape();
    Convolution.UniformImage(img, HorizontalKernel, c, x, y);
    Convolution.UniformImage(img, VerticalKernel, c, x, y);
  }

  /** isBetween: the half-open interval [lower, upper). */
  predicate IsBetween(v: real, lower: real, upper: real) {
    lower <= v && v < upper
  }

  /** orientation, on the angle already in degrees. */
  function Orientation(angle: real): (r: Result<real>)
    ensures r.Success? ==> r.value in {0.0, 45.0, 90.0, 135.0}
    ensures r.Failure? ==> r.error == InvalidAngle
  {
    if IsBetween(angle, 0.0, 22.5) || IsBetween(angle, -180.0, -157.5) then Success(0.0)
    else if IsBetween(angle, 157.5, 180.0) || IsBetween(angle, -22.5, 0.0) then Success(0.0)
    else if IsBetween(angle, 22.5, 67.5) || IsBetween(angle, -157.5, -112.5) then Success(45.0)
    else if IsBetween(angle, 67.5, 112.5) || IsBetween(angle, -112.5, -67.5) then Success(90.0)
    else if IsBetween(angle, 112.5, 157.5) || IsBetween(angle, -67.5, -22.5) then Success(135.0)
    else Failure(InvalidAngle)
  }

  /** The bands cover exactly [-180, 180): 180 itself, which atan2 can
      return, is rejected. */
  lemma OrientationDomain(angle: real)
    ensures Orientation(angle).Success? <==> -180.0 <= angle < 180.0
    ensures Orientation(180.0).Failure?
  {
  }

  /** Opposite directions share a band. */
  lemma OrientationHalfTurn(angle: real)
    requires -180.0 <= angle < 0.0
    ensures Orientation(angle) == Orientation(angle + 180.0)
  {
  }

  /** Reference form: the nearest multiple of 45 degrees, taken modulo 180. */
  function NearestDirection(angle: real): real {
    (((angle + 22.5) / 45.0).Floor % 4) as real * 45.0
  }

  lemma OrientationIsNearestDirection(angle: real)
    requires -180.0 <= angle < 180.0
    ensures Orientation(angle) == Success(NearestDirection(angle))
  {
    var q := (angle + 22.5) / 45.0;
    var n := q.Floor;
    assert n as real <= q < n as real + 1.0;
    assert -4 <= n <= 4 by {
      assert -3.5 <= q < 4.5;
    }
    if n == -4 { assert IsBetween(angle, -180.0, -157.5); }
    else if n == -3 { assert IsBetween(angle, -157.5, -112.5); }
    else if n == -2 { assert IsBetween(angle, -112.5, -67.5); }
    else if n == -1 { assert IsBetween(angle, -67.5, -22.5); }
    else if n == 0 { assert IsBetween(angle, -22.5, 22.5); }
    else if n == 1 { assert IsBetween(angle, 22.5, 67.5); }
    else if n == 2 { assert IsBetween(angle, 67.5, 112.5); }
    else if n == 3 { assert IsBetween(angle, 112.5, 157.5); }
    else { assert IsBetween(angle, 157.5, 180.0); }
  }

  /** The magnitude and direction grids, indexed [x][y]. */
  datatype GradientField = GradientField(g: seq<seq<real>>, theta: seq<seq<real>>)

  /** orientation of the angle at (x, y). */
  function PixelOrientation(vertical: Gray, horizontal: Gray, angle: (int, int) -> real, x: int, y: int): Result<real> {
    Orientation(angle(vertical.At(x, y), horizontal.At(x, y)))
  }

  predicate SomeAngleInvalid(vertical: Gray, horizontal: Gray, angle: (int, int) -> real) {
    exists x, y :: 0 <= x < vertical.w && 0 <= y < vertical.h &&
      PixelOrientation(vertical, horizontal, angle, x, y).Failure?
  }

  /** What GradientAndOrientation returns: "Invalid angle" if any pixel's
      angle is outside the bands, otherwise both grids over the bounds of
      `vertical`. */
  function GradientSpec(vertical: Gray, horizontal: Gray, hypot: (int, int) -> real, angle: (int, int) -> real)
    : Result<GradientField>
  {
    if SomeAngleInvalid(vertical, horizontal, angle) then Failure(InvalidAngle)
    else Success(GradientField(
      seq(vertical.w, x => seq(vertical.h, y => hypot(vertical.At(x, y), horizontal.At(x, y)))),
      seq(vertical.w, x => seq(vertical.h, y => PixelOrientation(vertical, horizontal, angle, x, y).GetOr(0.0)))))
  }

  method GradientAndOrientation(vertical: Gray, horizontal: Gray, hypot: (int, int) -> real, angle: (int, int) -> real)
    returns (r: Result<GradientField>)
    ensures r == GradientSpec(vertical, horizontal, hypot, angle)
  {
    var g: seq<seq<real>> := [];
    var theta: seq<seq<real>> := [];
    var x := 0;
    while x < vertical.w
      invariant 0 <= x <= vertical.w
      invariant forall i, j :: 0 <= i < x && 0 <= j < vertical.h ==>
                  PixelOrientation(vertical, horizontal, angle, i, j).Success?
      invariant |g| == x && |theta| == x
      invariant forall i :: 0 <= i < x ==>
                  g[i] == seq(vertical.h, y => hypot(vertical.At(i, y), horizontal.At(i, y)))
      invariant forall i :: 0 <= i < x ==>
                  theta[i] == seq(vertical.h, y => PixelOrientation(vertical, horizontal, angle, i, y).GetOr(0.0))
    {
      var gCol: seq<real> := [];
      var thetaCol: seq<real> := [];
      var y := 0;
      while y < vertical.h
        invariant 0 <= y <= vertical.h
        invariant forall j :: 0 <= j < y ==> PixelOrientation(vertical, horizontal, angle, x, j).Success?
        invariant |gCol| == y && |thetaCol| == y
        invariant forall j :: 0 <= j < y ==> gCol[j] == hypot(vertical.At(x, j), horizontal.At(x, j))
        invariant forall j :: 0 <= j < y ==>
                    thetaCol[j] == PixelOrientation(vertical, horizontal, angle, x, j).GetOr(0.0)
      {
        gCol := gCol + [hypot(vertical.At(x, y), horizontal.At(x, y))];
        var t := Orientation(angle(vertical.At(x, y), horizontal.At(x, y)));
        if t.Failure? {
          assert PixelOrientation(vertical, horizontal, angle, x, y).Failure?;
          return Failure(t.error);
        }
        thetaCol := thetaCol + [t.value];
        y := y + 1;
      }
      assert gCol == seq(vertical.h, y => hypot(vertical.At(x, y), horizontal.At(x, y)));
      assert thetaCol == seq(vertical.h, y => PixelOrientation(vertical, horizontal, angle, x, y).GetOr(0.0));
      g := g + [gCol];
      theta := theta + [thetaCol];
      x := x + 1;
    }
    assert !SomeAngleInvalid(vertical, horizontal, angle);
    var spec := GradientSpec(vertical, horizontal, hypot, angle).value;
    assert g == spec.g;
    assert theta == spec.theta;
    r := Success(GradientField(g, theta));
  }

  /** On success both grids have the bounds of `vertical`, every direction
      is one of the four quantised ones, and a non-negative hypot gives a
      non-negative magnitude; an angle function mapping samples into
      [0, 90] never fails. */
  lemma GradientShape(vertical: Gray, horizontal: Gray, hypot: (int, int) -> real, angle: (int, int) -> real)
    ensures var r := GradientSpec(vertical, horizontal, hypot, angle);
            r.Success? ==> IsRealGrid(r.value.g, vertical.w, vertical.h) &&
                           IsRealGrid(r.value.theta, vertical.w, vertical.h) &&
                           forall x, y :: 0 <= x < vertical.w && 0 <= y < vertical.h ==>
                             r.value.theta[x][y] in {0.0, 45.0, 90.0, 135.0}
    ensures (forall a, b :: 0 <= a < 256 && 0 <= b < 256 ==> 0.0 <= angle(a, b) <= 90.0) ==>
              GradientSpec(vertical, horizontal, hypot, angle).Success?
    ensures (forall a, b :: 0 <= a < 256 && 0 <= b < 256 ==> hypot(a, b) >= 0.0) &&
            GradientSpec(vertical, horizontal, hypot, angle).Success? ==>
              forall x, y :: 0 <= x < vertical.w && 0 <= y < vertical.h ==>
                GradientSpec(vertical, horizontal, hypot, angle).value.g[x][y] >= 0.0
  {
    var r := GradientSpec(vertical, horizontal, hypot, angle);
    if r.Success? {
      forall x, y | 0 <= x < vertical.w && 0 <= y < vertical.h
        ensures r.value.theta[x][y] in {0.0, 45.0, 90.0, 135.0}
      {
        assert PixelOrientation(vertical, horizontal, angle, x, y).Success?;
      }
    }
    if (forall a, b :: 0 <= a < 256 && 0 <= b < 256 ==> hypot(a, b) >= 0.0) && r.Success? {
      forall x, y | 0 <= x < vertical.w && 0 <= y < vertical.h
        ensures r.value.g[x][y] >= 0.0
      {
        assert r.value.g[x][y] == hypot(vertical.At(x, y), horizontal.At(x, y));
      }
    }
    if forall a, b :: 0 <= a < 256 && 0 <= b < 256 ==> 0.0 <= angle(a, b) <= 90.0 {
      forall x, y | 0 <= x < vertical.w && 0 <= y < vertical.h
        ensures PixelOrientation(vertical, horizontal, angle, x, y).Success?
      {
        OrientationDomain(angle(vertical.At(x, y), horizontal.At(x, y)));
      }
    }
  }
}
