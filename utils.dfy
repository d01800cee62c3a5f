/** utils/utils.go: pixel iteration, clamping, weighted addition, 8-bit
    subtraction and the 27 offsets of the 3x3x3 cube. */
module Utils {
  import opened Images

  // ---------------------------------------------------------------------
  // ForEachPixel

  /** The column x of the scan: (x, 0), (x, 1), ..., (x, h-1). */
  function Column(x: int, h: int): (c: seq<Point>)
    ensures |c| == if h < 0 then 0 else h
    ensures forall y :: 0 <= y < |c| ==> c[y] == Point(x, y)
  {
    if h <= 0 then [] else seq(h, y => Point(x, y))
  }

  /** The arguments ForEachPixel passes to its callback, in call order:
      x in the outer loop, y in the inner one. */
  function PixelOrder(w: int, h: int): seq<Point>
    decreases w
  {
    if w <= 0 then [] else PixelOrder(w - 1, h) + Column(w - 1, h)
  }

  /** ForEachPixel(size, f) calls f(x, y) once per pixel; `visits` records the
      calls in the order they happen. */
  method ForEachPixel(size: Point) returns (visits: seq<Point>)
    ensures visits == PixelOrder(size.x, size.y)
  {
    visits := [];
    var i := 0;
    while i < size.x
      invariant size.x <= 0 ==> i == 0
      invariant 0 <= i && (size.x > 0 ==> i <= size.x)
      invariant visits == PixelOrder(i, size.y)
    {
      var j := 0;
      while j < size.y
        invariant 0 <= j && (size.y > 0 ==> j <= size.y)
        invariant size.y <= 0 ==> j == 0
        invariant visits == PixelOrder(i, size.y) + Column(i, size.y)[..j]
      {
        visits := visits + [Point(i, j)];
        j := j + 1;
      }
      assert Column(i, size.y)[..j] == Column(i, size.y);
      i := i + 1;
    }
  }

  lemma {:induction false} PixelOrderLength(w: nat, h: nat)
    ensures |PixelOrder(w, h)| == w * h
  {
    if w > 0 {
      PixelOrderLength(w - 1, h);
      assert (w - 1) * h + h == w * h;
    }
  }

  /** x*h + y lies below w*h for a pixel of a w x h grid. */
  lemma PositionBelow(x: nat, y: nat, w: nat, h: nat)
    requires x < w && y < h
    ensures x * h + y < w * h
  {
    var k := w - 1 - x;
    assert w * h == x * h + k * h + h;
  }

  /** Every pixel of a w x h grid is visited, at position x*h + y. */
  lemma {:induction false} PixelOrderVisitsEveryPixel(w: nat, h: nat, x: nat, y: nat)
    requires x < w && y < h
    ensures x * h + y < |PixelOrder(w, h)|
    ensures PixelOrder(w, h)[x * h + y] == Point(x, y)
  {
    PixelOrderLength(w, h);
    PositionBelow(x, y, w, h);
    PixelOrderLength(w - 1, h);
    var prev := PixelOrder(w - 1, h);
    assert PixelOrder(w, h) == prev + Column(w - 1, h);
    if x < w - 1 {
      PositionBelow(x, y, w - 1, h);
      PixelOrderVisitsEveryPixel(w - 1, h, x, y);
    } else {
      assert x * h + y == |prev| + y;
    }
  }

  /** Position i of the scan holds a pixel of the grid, and i = x*h + y, so no
      pixel is visited twice and nothing outside the grid is visited. */
  lemma {:induction false} PixelOrderVisitsOnce(w: nat, h: nat, i: nat)
    requires i < |PixelOrder(w, h)|
    ensures var p := PixelOrder(w, h)[i];
            0 <= p.x < w && 0 <= p.y < h && i == p.x * h + p.y
  {
    var prev := PixelOrder(w - 1, h);
    assert PixelOrder(w, h) == prev + Column(w - 1, h);
    if i < |prev| {
      PixelOrderVisitsOnce(w - 1, h, i);
    } else {
      PixelOrderLength(w - 1, h);
      assert PixelOrder(w, h)[i] == Column(w - 1, h)[i - |prev|];
    }
  }

  /** A point is visited exactly when it lies in the grid. */
  lemma InPixelOrder(w: nat, h: nat, p: Point)
    ensures p in PixelOrder(w, h) <==> 0 <= p.x < w && 0 <= p.y < h
  {
    if p in PixelOrder(w, h) {
      var i :| 0 <= i < |PixelOrder(w, h)| && PixelOrder(w, h)[i] == p;
      PixelOrderVisitsOnce(w, h, i);
    }
    if 0 <= p.x < w && 0 <= p.y < h {
      PixelOrderVisitsEveryPixel(w, h, p.x, p.y);
    }
  }

  /** Row-major order on points: x first, then y. */
  predicate PointBefore(p: Point, q: Point) {
    p.x < q.x || (p.x == q.x && p.y < q.y)
  }

  /** Scan positions i*h + y with y in [0, h) order their x first. */
  lemma PositionOrder(xi: nat, yi: nat, xj: nat, yj: nat, h: nat)
    requires yi < h && yj < h && xi * h + yi < xj * h + yj
    ensures xi < xj || (xi == xj && yi < yj)
  {
    assert (xj + 1) * h == xj * h + h;
    assert ((xj + 1) - xi) * h == (xj + 1) * h - xi * h;
    if xi == xj {
      assert yi < yj;
    }
  }

  /** The visits are strictly increasing in row-major order. */
  lemma PixelOrderAscending(w: nat, h: nat, i: int, j: int)
    requires 0 <= i < j < |PixelOrder(w, h)|
    ensures PointBefore(PixelOrder(w, h)[i], PixelOrder(w, h)[j])
  {
    PixelOrderVisitsOnce(w, h, i);
    PixelOrderVisitsOnce(w, h, j);
    var p, q := PixelOrder(w, h)[i], PixelOrder(w, h)[j];
    PositionOrder(p.x, p.y, q.x, q.y, h);
  }

  // ---------------------------------------------------------------------
  // Clamp and the conversion to uint8

  /** Clamp(value, min, max). */
  function Clamp(value: real, min: real, max: real): (r: real)
    ensures min <= max ==> min <= r <= max
    ensures min <= value <= max ==> r == value
    ensures value < min ==> r == min
    ensures min <= value && value > max ==> r == max
  {
    if value < min then min else if value > max then max else value
  }

  /** `uint8(v)` for a float64 already inside [0, 255]: truncation toward zero,
      which for a non-negative value is the floor. */
  function Truncate(v: real): (r: byte)
    requires 0.0 <= v <= 255.0
    ensures r as real <= v < r as real + 1.0
  {
    v.Floor
  }

  /** `uint8(Clamp(v, MinUint8, MaxUint8))`, the store of a float sum into a
      gray sample (MinUint8 = 0, MaxUint8 = 255). */
  function Saturate(v: real): byte
  {
    Truncate(Clamp(v, 0.0, 255.0))
  }

  /** A sum below 0 stores 0, above 255 stores 255, and an integral sum in
      range is stored unchanged. */
  lemma SaturateCases(v: real)
    ensures v < 0.0 ==> Saturate(v) == 0
    ensures v >= 255.0 ==> Saturate(v) == 255
    ensures 0.0 <= v <= 255.0 ==> Saturate(v) as real <= v < Saturate(v) as real + 1.0
    ensures 0.0 <= v <= 255.0 && v == v.Floor as real ==> Saturate(v) == v.Floor
  {
  }

  // ---------------------------------------------------------------------
  // AddGrayWeighted

  /** One sample of AddGrayWeighted: uint8(Clamp(w1*p1 + w2*p2, 0, 255)). */
  function WeightedSample(p1: byte, w1: real, p2: byte, w2: real): byte
  {
    Saturate(p1 as real * w1 + p2 as real * w2)
  }

  /** The result AddGrayWeighted promises: a size error, or the image of the
      weighted samples, with img1's bounds. */
  function Weighted(img1: Gray, w1: real, img2: Gray, w2: real): Result<Gray>
  {
    if img1.w != img2.w || img1.h != img2.h then Failure(SizeMismatch)
    else Success(Tabulate(img1.w, img1.h, (x, y) => WeightedSample(img1.At(x, y), w1, img2.At(x, y), w2)))
  }

  method AddGrayWeighted(img1: Gray, w1: real, img2: Gray, w2: real) returns (r: Result<Gray>)
    requires img1.Valid() && img2.Valid()
    ensures r == Weighted(img1, w1, img2, w2)
    ensures r.Failure? <==> (img1.w != img2.w || img1.h != img2.h)
    ensures r.Success? ==> r.value.Valid() && r.value.w == img1.w && r.value.h == img1.h
  {
    if img1.w != img2.w || img1.h != img2.h {
      return Failure(SizeMismatch);
    }
    var res := new byte[img1.w, img1.h]((i, j) => 0);
    var x := 0;
    while x < img1.w
      invariant 0 <= x <= img1.w
      invariant forall i, j :: 0 <= i < x && 0 <= j < img1.h ==>
                  res[i, j] == WeightedSample(img1.At(i, j), w1, img2.At(i, j), w2)
    {
      var y := 0;
      while y < img1.h
        invariant 0 <= y <= img1.h
        invariant forall i, j :: 0 <= i < x && 0 <= j < img1.h ==>
                    res[i, j] == WeightedSample(img1.At(i, j), w1, img2.At(i, j), w2)
        invariant forall j :: 0 <= j < y ==> res[x, j] == WeightedSample(img1.At(x, j), w1, img2.At(x, j), w2)
      {
        var p1 := img1.At(x, y);
        var p2 := img2.At(x, y);
        res[x, y] := WeightedSample(p1, w1, p2, w2);
        y := y + 1;
      }
      x := x + 1;
    }
    var out := Freeze(res);
    GrayExt(out, Weighted(img1, w1, img2, w2).value);
    r := Success(out);
  }

  /** With weights 0.5 and 0.5, as SobelGray uses them, two gray samples add
      to the floor of their mean: the clamp never engages. */
  lemma HalfWeightsFloorMean(a: byte, b: byte)
    ensures WeightedSample(a, 0.5, b, 0.5) == (a + b) / 2
  {
    var s := a as real * 0.5 + b as real * 0.5;
    var q := (a + b) / 2;
    assert a + b == 2 * q || a + b == 2 * q + 1;
    assert s == (a + b) as real / 2.0;
    assert q as real <= s < q as real + 1.0;
  }

  // ---------------------------------------------------------------------
  // SubtractGrayColor and SubtractGrayImages

  /** `color.Gray{Y}.RGBA()` returns Y * 0x101 in each channel. */
  function GrayRGBA(y: byte): int { y * 0x101 }

  /** SubtractGrayColor: the uint32 difference of the two RGBA gray levels,
      truncated to uint8. */
  function SubtractGrayColor(first: byte, second: byte): byte
  {
    ((GrayRGBA(first) - GrayRGBA(second)) % 0x1_0000_0000) % 256
  }

  /** Because 257 = 1 (mod 256) and 256 divides 2^32, the result is the
      difference modulo 256: a - b when a >= b, and a - b + 256 otherwise. */
  lemma SubtractGrayColorIsMod256(a: byte, b: byte)
    ensures SubtractGrayColor(a, b) == (a - b) % 256
    ensures a >= b ==> SubtractGrayColor(a, b) == a - b
    ensures a < b ==> SubtractGrayColor(a, b) == a - b + 256
  {
    var d := a - b;
    assert GrayRGBA(a) - GrayRGBA(b) == 257 * d;
    if d >= 0 {
      ModOfDecomposition(257 * d, 0x1_0000_0000, 0, 257 * d);
      ModOfDecomposition(257 * d, 256, d, d);
      ModOfDecomposition(d, 256, 0, d);
    } else {
      var m := 0x1_0000_0000 + 257 * d;
      ModOfDecomposition(257 * d, 0x1_0000_0000, -1, m);
      ModOfDecomposition(m, 256, 0x100_0000 + d - 1, d + 256);
      ModOfDecomposition(d, 256, -1, d + 256);
    }
  }

  /** x % n is the remainder of any decomposition x = n * q + r with
      0 <= r < n. */
  lemma ModOfDecomposition(x: int, n: int, q: int, r: int)
    requires n > 0 && x == n * q + r && 0 <= r < n
    ensures x % n == r
  {
    var q' := x / n;
    var r' := x % n;
    assert x == n * q' + r' && 0 <= r' < n;
    if q' > q {
      assert n * q' - n * q == n * (q' - q);
      ProductAtLeast(n, q' - q);
    } else if q' < q {
      assert n * q - n * q' == n * (q - q');
      ProductAtLeast(n, q - q');
    }
  }

  lemma ProductAtLeast(n: int, k: int)
    requires n > 0 && k >= 1
    ensures n * k >= n
  {
  }

  /** The result SubtractGrayImages promises: an empty image when the bounds
      differ, otherwise the pixel-wise SubtractGrayColor. */
  function Subtracted(first: Gray, second: Gray): (r: Gray)
    ensures r.Valid()
    ensures first.w == second.w && first.h == second.h ==> r.w == first.w && r.h == first.h
    ensures first.w != second.w || first.h != second.h ==> r.w == 0 && r.h == 0
  {
    if first.w != second.w || first.h != second.h then Gray(0, 0, [])
    else Tabulate(first.w, first.h, (x, y) => SubtractGrayColor(first.At(x, y), second.At(x, y)))
  }

  method SubtractGrayImages(first: Gray, second: Gray) returns (r: Gray)
    requires first.Valid() && second.Valid()
    ensures r == Subtracted(first, second)
    ensures r.Valid()
    ensures first.w == second.w && first.h == second.h ==> r.w == first.w && r.h == first.h
    ensures first.w != second.w || first.h != second.h ==> r.w == 0 && r.h == 0
  {
    if first.w != second.w || first.h != second.h {
      return Gray(0, 0, []);
    }
    var res := new byte[first.w, first.h]((i, j) => 0);
    var x := 0;
    while x < first.w
      invariant 0 <= x <= first.w
      invariant forall i, j :: 0 <= i < x && 0 <= j < first.h ==>
                  res[i, j] == SubtractGrayColor(first.At(i, j), second.At(i, j))
    {
      var y := 0;
      while y < first.h
        invariant 0 <= y <= first.h
        invariant forall i, j :: 0 <= i < x && 0 <= j < first.h ==>
                    res[i, j] == SubtractGrayColor(first.At(i, j), second.At(i, j))
        invariant forall j :: 0 <= j < y ==> res[x, j] == SubtractGrayColor(first.At(x, j), second.At(x, j))
      {
        res[x, y] := SubtractGrayColor(first.At(x, y), second.At(x, y));
        y := y + 1;
      }
      x := x + 1;
    }
    r := Freeze(res);
    GrayExt(r, Subtracted(first, second));
  }

  /** Every sample of the difference is (a - b) mod 256 of the two samples. */
  lemma SubtractedIsMod256(first: Gray, second: Gray, x: int, y: int)
    requires first.w == second.w && first.h == second.h
    requires 0 <= x < first.w && 0 <= y < first.h
    ensures Subtracted(first, second).At(x, y) == (first.At(x, y) - second.At(x, y)) % 256
  {
    SubtractGrayColorIsMod256(first.At(x, y), second.At(x, y));
  }

  /** The all-zero image of the given bounds. */
  function Zeros(w: nat, h: nat): Gray
  {
    Tabulate(w, h, (x, y) => 0)
  }

  /** Subtracting an image from itself gives all zeros. */
  lemma SubtractSelfIsZero(img: Gray)
    requires img.Valid()
    ensures Subtracted(img, img) == Zeros(img.w, img.h)
  {
    forall x, y | 0 <= x < img.w && 0 <= y < img.h
      ensures Subtracted(img, img).At(x, y) == Zeros(img.w, img.h).At(x, y)
    {
      SubtractGrayColorIsMod256(img.At(x, y), img.At(x, y));
    }
    GrayExt(Subtracted(img, img), Zeros(img.w, img.h));
  }

  /** Subtracting the all-zero image changes nothing. */
  lemma SubtractZeroIsIdentity(img: Gray)
    requires img.Valid()
    ensures Subtracted(img, Zeros(img.w, img.h)) == img
  {
    forall x, y | 0 <= x < img.w && 0 <= y < img.h
      ensures Subtracted(img, Zeros(img.w, img.h)).At(x, y) == img.At(x, y)
    {
      SubtractGrayColorIsMod256(img.At(x, y), 0);
    }
    GrayExt(Subtracted(img, Zeros(img.w, img.h)), img);
  }

  /** Go's uint8 wrap-around: 0 - 1 is 255. */
  lemma SubtractUnderflowWraps()
    ensures SubtractGrayColor(0, 1) == 255
  {
    SubtractGrayColorIsMod256(0, 1);
  }

  // ---------------------------------------------------------------------
  // Create3DDirection

  /** The offsets of entry d of the enumeration: x outermost, then y, then z. */
  function DirX(d: int): int { d / 9 - 1 }
  function DirY(d: int): int { (d / 3) % 3 - 1 }
  function DirZ(d: int): int { d % 3 - 1 }

  /** The position of offset (a, b, c) in the enumeration. */
  function DirIndex(a: int, b: int, c: int): int { 9 * (a + 1) + 3 * (b + 1) + (c + 1) }

  predicate IsUnitOffset(a: int) { -1 <= a <= 1 }

  method Create3DDirection() returns (dirx: seq<int>, diry: seq<int>, dirz: seq<int>)
    ensures |dirx| == 27 && |diry| == 27 && |dirz| == 27
    ensures forall d :: 0 <= d < 27 ==> dirx[d] == DirX(d) && diry[d] == DirY(d) && dirz[d] == DirZ(d)
  {
    dirx, diry, dirz := [], [], [];
    var x := -1;
    while x <= 1
      invariant -1 <= x <= 2
      invariant |dirx| == |diry| == |dirz| == 9 * (x + 1)
      invariant forall d :: 0 <= d < |dirx| ==> dirx[d] == DirX(d) && diry[d] == DirY(d) && dirz[d] == DirZ(d)
    {
      var y := -1;
      while y <= 1
        invariant -1 <= y <= 2
        invariant |dirx| == |diry| == |dirz| == 9 * (x + 1) + 3 * (y + 1)
        invariant forall d :: 0 <= d < |dirx| ==> dirx[d] == DirX(d) && diry[d] == DirY(d) && dirz[d] == DirZ(d)
      {
        var z := -1;
        while z <= 1
          invariant -1 <= z <= 2
          invariant |dirx| == |diry| == |dirz| == 9 * (x + 1) + 3 * (y + 1) + (z + 1)
          invariant forall d :: 0 <= d < |dirx| ==> dirx[d] == DirX(d) && diry[d] == DirY(d) && dirz[d] == DirZ(d)
        {
          DirOfIndex(x, y, z);
          dirx := dirx + [x];
          diry := diry + [y];
          dirz := dirz + [z];
          z := z + 1;
        }
        y := y + 1;
      }
      x := x + 1;
    }
  }

  /** Entry DirIndex(a, b, c) of the enumeration is (a, b, c). */
  lemma DirOfIndex(a: int, b: int, c: int)
    requires IsUnitOffset(a) && IsUnitOffset(b) && IsUnitOffset(c)
    ensures 0 <= DirIndex(a, b, c) < 27
    ensures DirX(DirIndex(a, b, c)) == a && DirY(DirIndex(a, b, c)) == b && DirZ(DirIndex(a, b, c)) == c
  {
    var d := DirIndex(a, b, c);
    assert d / 9 == a + 1;
    assert d / 3 == 3 * (a + 1) + (b + 1);
    assert (d / 3) % 3 == b + 1;
    assert d % 3 == c + 1;
  }

  /** Entry d of the enumeration is a unit offset, and DirIndex recovers d. */
  lemma IndexOfDir(d: int)
    requires 0 <= d < 27
    ensures IsUnitOffset(DirX(d)) && IsUnitOffset(DirY(d)) && IsUnitOffset(DirZ(d))
    ensures DirIndex(DirX(d), DirY(d), DirZ(d)) == d
  {
    var q, r := d / 3, d % 3;
    assert d == 3 * q + r;
    assert q / 3 == d / 9;
    assert q == 3 * (q / 3) + q % 3;
  }

  /** The 27 entries enumerate {-1,0,1}^3 exactly once: DirIndex is a bijection
      between the unit offsets and the entries, so no two entries are equal.
      The centre (0,0,0) is entry 13. */
  lemma DirectionsEnumerateCube(d: int, e: int)
    requires 0 <= d < 27 && 0 <= e < 27 && d != e
    ensures (DirX(d), DirY(d), DirZ(d)) != (DirX(e), DirY(e), DirZ(e))
    ensures DirX(13) == 0 && DirY(13) == 0 && DirZ(13) == 0
  {
    IndexOfDir(d);
    IndexOfDir(e);
    DirOfIndex(0, 0, 0);
  }
}
