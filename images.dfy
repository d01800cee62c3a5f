/** Shared value types of the image pipeline: 8-bit gray images, real-valued
    grids, points and the errors the Go code returns. */
module Images {

  /** An 8-bit sample, the `Y` of a `color.Gray`. */
  type byte = x: int | 0 <= x < 256

  /** `image.Point`. */
  datatype Point = Point(x: int, y: int)

  /** The error values the pipeline returns instead of a result. */
  datatype Error =
    | NegativeSize          // padding: "Negative size"
    | NegativeAnchor        // padding: "Negative anchor value"
    | AnchorOutsideKernel   // padding: "Anchor value outside of the kernel"
    | SizeMismatch          // utils: "The size of the two image does not match"
    | RadiusNotPositive     // blurring: "radius must be bigger then 0"
    | InvalidAngle          // gradient: "Invalid angle"

  /** A Go `(value, error)` pair: exactly one of the two is meaningful. */
  datatype Result<T> = Success(value: T) | Failure(error: Error) {
    /** The value, or `d` when there is none (Go returns a zero value with an error). */
    function GetOr(d: T): (r: T) {
      if Success? then value else d
    }
  }

  /** An `image.Gray` whose bounds start at (0,0): `w` columns of `h` samples,
      indexed `px[x][y]`. */
  datatype Gray = Gray(w: nat, h: nat, px: seq<seq<byte>>) {

    /** The sample table has exactly the declared bounds. */
    predicate Valid() {
      |px| == w && forall x :: 0 <= x < w ==> |px[x]| == h
    }

    predicate InBounds(x: int, y: int) {
      0 <= x < w && 0 <= y < h
    }

    /** `GrayAt(x, y).Y`: the sample at (x, y), and 0 outside the bounds. */
    function At(x: int, y: int): byte {
      if InBounds(x, y) && x < |px| && y < |px[x]| then px[x][y] else 0
    }
  }

  /** Two well-formed images with equal bounds and equal samples are equal. */
  lemma GrayExt(a: Gray, b: Gray)
    requires a.Valid() && b.Valid() && a.w == b.w && a.h == b.h
    requires forall x, y :: 0 <= x < a.w && 0 <= y < a.h ==> a.At(x, y) == b.At(x, y)
    ensures a == b
  {
    forall x | 0 <= x < a.w
      ensures a.px[x] == b.px[x]
    {
      forall y | 0 <= y < a.h
        ensures a.px[x][y] == b.px[x][y]
      {
        assert a.At(x, y) == b.At(x, y);
      }
    }
  }

  /** The image of size w x h whose sample at (x, y) is f(x, y). */
  function Tabulate(w: nat, h: nat, f: (int, int) -> byte): (g: Gray)
    ensures g.Valid() && g.w == w && g.h == h
    ensures forall x, y :: 0 <= x < w && 0 <= y < h ==> g.At(x, y) == f(x, y)
  {
    Gray(w, h, seq(w, x => seq(h, y => f(x, y))))
  }

  /** The samples currently held by a pixel buffer, as an image value. */
  function Freeze(a: array2<byte>): (g: Gray)
    reads a
    ensures g.Valid() && g.w == a.Length0 && g.h == a.Length1
    ensures forall x, y :: 0 <= x < a.Length0 && 0 <= y < a.Length1 ==> g.At(x, y) == a[x, y]
  {
    Gray(a.Length0, a.Length1,
      seq(a.Length0, (x: int) requires 0 <= x < a.Length0 reads a =>
        seq(a.Length1, (y: int) requires 0 <= y < a.Length1 reads a => a[x, y])))
  }

  /** A Go `[][]float64` indexed `g[x][y]` with w columns of h entries. */
  predicate IsRealGrid(g: seq<seq<real>>, w: int, h: int) {
    |g| == w && forall x :: 0 <= x < |g| ==> |g[x]| == h
  }

  /** Lemma form of extensionality for real grids. */
  lemma RealGridExt(a: seq<seq<real>>, b: seq<seq<real>>, w: nat, h: nat)
    requires IsRealGrid(a, w, h) && IsRealGrid(b, w, h)
    requires forall x, y :: 0 <= x < w && 0 <= y < h ==> a[x][y] == b[x][y]
    ensures a == b
  {
    forall x | 0 <= x < w
      ensures a[x] == b[x]
    {
      assert forall y :: 0 <= y < h ==> a[x][y] == b[x][y];
    }
  }
}
