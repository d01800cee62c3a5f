/** sift/sift_feature.go, first half: the candidate stage of SIFT. A scale
    space of blurred and halved images, its differences of Gaussians (8-bit
    wrapped subtraction) and the 3x3x3 extremum scan. The gradient table,
    its normalisation and the threshold filter are in sift_gradient.dfy.

    Foreign and floating-point pieces enter as parameters: `halve` is
    utils.HalveImage (a bilinear resampler from another library), `k` is
    math.Pow(2, 1/scale) and `gaussian` the normalised Gaussian weights. */
module Sift {
  import opened Images
  import Utils
  import Convolution
  import Blurring

  /** A candidate: the octave (scale-space row), the DoG layer and the pixel. */
  datatype KeyPoint = KeyPoint(octave: int, scale: int, x: int, y: int)

  // Scale space.

  /** k^n: the sigma of scale-space column n, the float product the sigma
      loop approximates. */
  function Power(k: real, n: nat): real {
    if n == 0 then 1.0 else Power(k, n - 1) * k
  }

  /** [k^0, ..., k^(n-1)]. */
  function PowerTable(k: real, n: nat): seq<real>
    decreases n
  {
    if n == 0 then [] else PowerTable(k, n - 1) + [Power(k, n - 1)]
  }

  lemma {:induction false} PowerTableAt(k: real, n: nat, i: int)
    requires 0 <= i < n
    ensures |PowerTable(k, n)| == n && PowerTable(k, n)[i] == Power(k, i)
    decreases n
  {
    if i < n - 1 {
      PowerTableAt(k, n - 1, i);
    } else if n > 1 {
      PowerTableAt(k, n - 1, 0);
    }
  }

  /** The sigma table: sig[0] = 1 and each entry k times the one before. */
  method Sigmas(scale: int, k: real) returns (sig: seq<real>)
    requires scale >= 1
    ensures |sig| == scale
    ensures forall i :: 0 <= i < scale ==> sig[i] == Power(k, i)
  {
    sig := [1.0];
    var i := 1;
    while i < scale
      invariant 1 <= i <= scale && sig == PowerTable(k, i)
    {
      PowerTableAt(k, i, i - 1);
      assert sig[i - 1] * k == Power(k, i);
      sig := sig + [sig[i - 1] * k];
      assert sig == PowerTable(k, i + 1);
      i := i + 1;
    }
    PowerTableAt(k, scale, 0);
    forall j | 0 <= j < scale
      ensures sig[j] == Power(k, j)
    {
      PowerTableAt(k, scale, j);
    }
  }

  /** `halve` maps well-formed images to well-formed images. */
  ghost predicate HalvesValid(halve: Gray -> Gray) {
    forall g: Gray {:trigger halve(g)} :: g.Valid() ==> halve(g).Valid()
  }

  /** `blur` maps well-formed images to well-formed images of the same bounds. */
  ghost predicate BlurKeepsShape(blur: (Gray, real) -> Gray) {
    forall g: Gray, sigma: real {:trigger blur(g, sigma)} ::
      g.Valid() ==> blur(g, sigma).Valid() && blur(g, sigma).w == g.w && blur(g, sigma).h == g.h
  }

  /** GaussianBlurGray(prev, 5, sigma) with its (unreachable) error replaced
      by the input. */
  function BlurStep(prev: Gray, sigma: real, gaussian: (real, real, int, int) -> real): Gray {
    Blurring.Blurred(prev, 5.0, sigma, gaussian).GetOr(prev)
  }

  /** The blur createScaleSpace applies between neighbouring columns. */
  function Blur(gaussian: (real, real, int, int) -> real): (Gray, real) -> Gray {
    (prev: Gray, sigma: real) => BlurStep(prev, sigma, gaussian)
  }

  /** The radius-5 blur of a well-formed image succeeds and keeps its
      bounds, so the panic in createScaleSpace is unreachable. */
  lemma BlurStepShape(prev: Gray, sigma: real, gaussian: (real, real, int, int) -> real)
    requires prev.Valid()
    ensures Blurring.Blurred(prev, 5.0, sigma, gaussian) == Success(BlurStep(prev, sigma, gaussian))
    ensures BlurStep(prev, sigma, gaussian).Valid()
    ensures BlurStep(prev, sigma, gaussian).w == prev.w && BlurStep(prev, sigma, gaussian).h == prev.h
  {
    Blurring.KernelLengthBounds(5.0);
    Convolution.ConvolvedShape(prev, Blurring.GaussianKernel(5.0, sigma, gaussian));
  }

  /** `blur` is GaussianBlurGray with radius 5 on well-formed images. */
  ghost predicate IsGaussianBlur(blur: (Gray, real) -> Gray, gaussian: (real, real, int, int) -> real) {
    forall g: Gray, sigma: real {:trigger Blurring.Blurred(g, 5.0, sigma, gaussian)} ::
      g.Valid() ==> Blurring.Blurred(g, 5.0, sigma, gaussian) == Success(blur(g, sigma))
  }

  /** Blur(gaussian) is that blur, and it keeps the shape of its input. */
  lemma BlurShape(gaussian: (real, real, int, int) -> real)
    ensures IsGaussianBlur(Blur(gaussian), gaussian)
    ensures BlurKeepsShape(Blur(gaussian))
  {
    forall g: Gray, sigma: real | g.Valid()
      ensures Blurring.Blurred(g, 5.0, sigma, gaussian) == Success(Blur(gaussian)(g, sigma))
      ensures Blur(gaussian)(g, sigma).Valid()
      ensures Blur(gaussian)(g, sigma).w == g.w && Blur(gaussian)(g, sigma).h == g.h
    {
      BlurStepShape(g, sigma, gaussian);
    }
  }

  /** Cell (row, col) of the scale space: the input at (0, 0), the halved
      first image of the row above in column 0, and otherwise the image to
      its left blurred with sigma k^col. */
  function ScaleLayer(img: Gray, halve: Gray -> Gray, blur: (Gray, real) -> Gray, k: real,
                      row: nat, col: nat): Gray
    decreases row, col
  {
    if row == 0 && col == 0 then img
    else if col == 0 then halve(ScaleLayer(img, halve, blur, k, row - 1, 0))
    else blur(ScaleLayer(img, halve, blur, k, row, col - 1), Power(k, col))
  }

  /** Every scale-space cell is well formed and has the bounds of the first
      cell of its row; the first row has the input's bounds. */
  lemma {:induction false} ScaleLayerShape(img: Gray, halve: Gray -> Gray, blur: (Gray, real) -> Gray,
                                           k: real, row: nat, col: nat)
    requires img.Valid() && HalvesValid(halve) && BlurKeepsShape(blur)
    ensures ScaleLayer(img, halve, blur, k, row, col).Valid()
    ensures ScaleLayer(img, halve, blur, k, row, col).w == ScaleLayer(img, halve, blur, k, row, 0).w
    ensures ScaleLayer(img, halve, blur, k, row, col).h == ScaleLayer(img, halve, blur, k, row, 0).h
    ensures row == 0 ==> ScaleLayer(img, halve, blur, k, row, col).w == img.w
    ensures row == 0 ==> ScaleLayer(img, halve, blur, k, row, col).h == img.h
    decreases row, col
  {
    if row == 0 && col == 0 {
    } else if col == 0 {
      ScaleLayerShape(img, halve, blur, k, row - 1, 0);
    } else {
      ScaleLayerShape(img, halve, blur, k, row, col - 1);
    }
  }

  /** The first n cells of row `row` of the scale space, in column order. */
  function ScaleRow(img: Gray, halve: Gray -> Gray, blur: (Gray, real) -> Gray, k: real,
                    row: nat, n: nat): seq<Gray>
    decreases n
  {
    if n == 0 then [] else ScaleRow(img, halve, blur, k, row, n - 1) + [ScaleLayer(img, halve, blur, k, row, n - 1)]
  }

  /** The first n rows of the scale space, each of `scale` cells. */
  function ScaleSpace(img: Gray, halve: Gray -> Gray, blur: (Gray, real) -> Gray, k: real,
                      n: nat, scale: nat): seq<seq<Gray>>
    decreases n
  {
    if n == 0 then [] else ScaleSpace(img, halve, blur, k, n - 1, scale) + [ScaleRow(img, halve, blur, k, n - 1, scale)]
  }

  /** Row `row` holds n cells, cell c being ScaleLayer(row, c). */
  lemma {:induction false} ScaleRowCells(img: Gray, halve: Gray -> Gray, blur: (Gray, real) -> Gray, k: real,
                                         row: nat, n: nat)
    ensures |ScaleRow(img, halve, blur, k, row, n)| == n
    ensures forall c :: 0 <= c < n ==> ScaleRow(img, halve, blur, k, row, n)[c] == ScaleLayer(img, halve, blur, k, row, c)
    decreases n
  {
    if n > 0 {
      ScaleRowCells(img, halve, blur, k, row, n - 1);
    }
  }

  /** The scale space holds n rows, row r being ScaleRow(r, scale). */
  lemma {:induction false} ScaleSpaceRows(img: Gray, halve: Gray -> Gray, blur: (Gray, real) -> Gray, k: real,
                                          n: nat, scale: nat)
    ensures |ScaleSpace(img, halve, blur, k, n, scale)| == n
    ensures forall r :: 0 <= r < n ==> ScaleSpace(img, halve, blur, k, n, scale)[r] == ScaleRow(img, halve, blur, k, r, scale)
    decreases n
  {
    if n > 0 {
      ScaleSpaceRows(img, halve, blur, k, n - 1, scale);
    }
  }

  /** The last of the first n rows starts with ScaleLayer(n - 1, 0). */
  lemma LastRowStart(img: Gray, halve: Gray -> Gray, blur: (Gray, real) -> Gray, k: real, n: nat, scale: nat)
    requires n >= 1 && scale >= 1
    ensures |ScaleSpace(img, halve, blur, k, n, scale)| == n
    ensures |ScaleSpace(img, halve, blur, k, n, scale)[n - 1]| >= 1
    ensures ScaleSpace(img, halve, blur, k, n, scale)[n - 1][0] == ScaleLayer(img, halve, blur, k, n - 1, 0)
  {
    ScaleSpaceRows(img, halve, blur, k, n, scale);
    ScaleRowCells(img, halve, blur, k, n - 1, scale);
  }

  /** Cell (r, c) of the scale space is ScaleLayer(r, c). */
  lemma ScaleSpaceCell(img: Gray, halve: Gray -> Gray, blur: (Gray, real) -> Gray, k: real,
                       octave: nat, scale: nat, r: nat, c: nat)
    requires r < octave && c < scale
    ensures |ScaleSpace(img, halve, blur, k, octave, scale)| == octave
    ensures |ScaleSpace(img, halve, blur, k, octave, scale)[r]| == scale
    ensures ScaleSpace(img, halve, blur, k, octave, scale)[r][c] == ScaleLayer(img, halve, blur, k, r, c)
  {
    ScaleSpaceRows(img, halve, blur, k, octave, scale);
    ScaleRowCells(img, halve, blur, k, r, scale);
  }

  /** One GaussianBlurGray call of createScaleSpace; its error branch (the
      panic) is unreachable. */
  method BlurCell(prev: Gray, sigma: real, gaussian: (real, real, int, int) -> real,
                  ghost blur: (Gray, real) -> Gray)
    returns (cell: Gray)
    requires prev.Valid() && IsGaussianBlur(blur, gaussian)
    ensures cell == blur(prev, sigma)
  {
    var tmp := Blurring.GaussianBlurGray(prev, 5.0, sigma, gaussian);
    assert Blurring.Blurred(prev, 5.0, sigma, gaussian) == Success(blur(prev, sigma));
    cell := tmp.value;
  }

  /** The column loop of createScaleSpace for one row; `above` is the row
      before it. */
  method FillScaleRow(img: Gray, row: nat, scale: int, sig: seq<real>, k: real, above: seq<Gray>,
                      halve: Gray -> Gray, gaussian: (real, real, int, int) -> real,
                      ghost blur: (Gray, real) -> Gray)
    returns (cells: seq<Gray>)
    requires img.Valid() && HalvesValid(halve) && scale >= 1
    requires IsGaussianBlur(blur, gaussian) && BlurKeepsShape(blur)
    requires |sig| == scale && forall i :: 0 <= i < scale ==> sig[i] == Power(k, i)
    requires row > 0 ==> |above| >= 1 && above[0] == ScaleLayer(img, halve, blur, k, row - 1, 0)
    ensures cells == ScaleRow(img, halve, blur, k, row, scale)
  {
    cells := [];
    var col := 0;
    while col < scale
      invariant 0 <= col <= scale && cells == ScaleRow(img, halve, blur, k, row, col)
    {
      ScaleRowCells(img, halve, blur, k, row, col);
      var cell: Gray;
      if row == 0 && col == 0 {
        cell := img;
      } else if col == 0 {
        cell := halve(above[0]);
      } else {
        ScaleLayerShape(img, halve, blur, k, row, col - 1);
        cell := BlurCell(cells[col - 1], sig[col], gaussian, blur);
      }
      cells := cells + [cell];
      col := col + 1;
    }
  }

  /** createScaleSpace: row by row, column by column. `blur` is the Gaussian
      blur the source calls (Blur(gaussian) satisfies the requirement, see
      BlurShape). */
  method CreateScaleSpace(img: Gray, octave: nat, scale: int, k: real,
                          halve: Gray -> Gray, gaussian: (real, real, int, int) -> real,
                          ghost blur: (Gray, real) -> Gray)
    returns (scaleSpace: seq<seq<Gray>>)
    requires img.Valid() && HalvesValid(halve) && scale >= 1
    requires IsGaussianBlur(blur, gaussian) && BlurKeepsShape(blur)
    ensures scaleSpace == ScaleSpace(img, halve, blur, k, octave, scale)
  {
    var sig := Sigmas(scale, k);
    scaleSpace := [];
    var row := 0;
    while row < octave
      invariant 0 <= row <= octave && scaleSpace == ScaleSpace(img, halve, blur, k, row, scale)
    {
      if row > 0 {
        LastRowStart(img, halve, blur, k, row, scale);
      }
      var cells := FillScaleRow(img, row, scale, sig, k, if row > 0 then scaleSpace[row - 1] else [],
                                halve, gaussian, blur);
      scaleSpace := scaleSpace + [cells];
      row := row + 1;
    }
  }

  // Differences of Gaussians.

  /** The first n differences of neighbouring cells of one scale-space row. */
  function DoGRow(cells: seq<Gray>, n: nat): (layers: seq<Gray>)
    requires n < |cells| || n == 0
    ensures |layers| == n
    decreases n
  {
    if n == 0 then [] else DoGRow(cells, n - 1) + [Utils.Subtracted(cells[n - 1], cells[n])]
  }

  /** createDoG's result for the first n rows: `scale - 1` wrapped
      differences per row. */
  function DoG(ss: seq<seq<Gray>>, n: nat, scale: int): (dog: seq<seq<Gray>>)
    requires n <= |ss| && scale >= 1 && forall r :: 0 <= r < n ==> |ss[r]| >= scale
    ensures |dog| == n && forall r :: 0 <= r < n ==> |dog[r]| == scale - 1
    decreases n
  {
    if n == 0 then [] else DoG(ss, n - 1, scale) + [DoGRow(ss[n - 1], scale - 1)]
  }

  /** A DoG row holds n layers, layer c being cell c minus cell c + 1. */
  lemma {:induction false} DoGRowCells(cells: seq<Gray>, n: nat)
    requires n < |cells| || n == 0
    ensures |DoGRow(cells, n)| == n
    ensures forall c :: 0 <= c < n ==> DoGRow(cells, n)[c] == Utils.Subtracted(cells[c], cells[c + 1])
    decreases n
  {
    if n > 0 {
      DoGRowCells(cells, n - 1);
    }
  }

  /** The DoG holds n rows, row r being DoGRow(ss[r], scale - 1). */
  lemma {:induction false} DoGRows(ss: seq<seq<Gray>>, n: nat, scale: int)
    requires n <= |ss| && scale >= 1 && forall r :: 0 <= r < n ==> |ss[r]| >= scale
    ensures |DoG(ss, n, scale)| == n
    ensures forall r :: 0 <= r < n ==> DoG(ss, n, scale)[r] == DoGRow(ss[r], scale - 1)
    decreases n
  {
    if n > 0 {
      DoGRows(ss, n - 1, scale);
    }
  }

  /** Every DoG layer is a well-formed image. */
  lemma DoGCellsValid(ss: seq<seq<Gray>>, n: nat, scale: int)
    requires n <= |ss| && scale >= 1 && forall r :: 0 <= r < n ==> |ss[r]| >= scale
    ensures forall r, c :: 0 <= r < n && 0 <= c < scale - 1 ==> DoG(ss, n, scale)[r][c].Valid()
  {
    DoGRows(ss, n, scale);
    forall r | 0 <= r < n
      ensures forall c :: 0 <= c < scale - 1 ==> DoG(ss, n, scale)[r][c].Valid()
    {
      DoGRowCells(ss[r], scale - 1);
      forall c | 0 <= c < scale - 1
        ensures DoG(ss, n, scale)[r][c].Valid()
      {
        assert DoG(ss, n, scale)[r][c] == Utils.Subtracted(ss[r][c], ss[r][c + 1]);
      }
    }
  }

  /** The column loop of createDoG for one row. */
  method SubtractRow(cells: seq<Gray>, scale: int) returns (layers: seq<Gray>)
    requires scale >= 1 && |cells| >= scale
    requires forall c :: 0 <= c < scale ==> cells[c].Valid()
    ensures layers == DoGRow(cells, scale - 1)
  {
    layers := [];
    var col := 0;
    while col < scale - 1
      invariant 0 <= col <= scale - 1 && layers == DoGRow(cells, col)
    {
      var d := Utils.SubtractGrayImages(cells[col], cells[col + 1]);
      layers := layers + [d];
      col := col + 1;
    }
  }

  /** createDoG: for every row, the differences of neighbouring columns. */
  method CreateDoG(octave: nat, scale: int, scaleSpace: seq<seq<Gray>>) returns (dog: seq<seq<Gray>>)
    requires octave <= |scaleSpace| && scale >= 1
    requires forall r :: 0 <= r < octave ==> |scaleSpace[r]| >= scale
    requires forall r, c :: 0 <= r < octave && 0 <= c < scale ==> scaleSpace[r][c].Valid()
    ensures dog == DoG(scaleSpace, octave, scale)
  {
    dog := [];
    var row := 0;
    while row < octave
      invariant 0 <= row <= octave && dog == DoG(scaleSpace, row, scale)
    {
      var layers := SubtractRow(scaleSpace[row], scale);
      dog := dog + [layers];
      row := row + 1;
    }
  }

  /** The scale space has `octave` rows of `scale` well-formed cells, and
      every cell of a row has the bounds of its first cell. */
  lemma ScaleSpaceShape(img: Gray, halve: Gray -> Gray, blur: (Gray, real) -> Gray, k: real,
                        octave: nat, scale: nat)
    requires img.Valid() && HalvesValid(halve) && BlurKeepsShape(blur)
    ensures var ss := ScaleSpace(img, halve, blur, k, octave, scale);
            |ss| == octave &&
            (forall r :: 0 <= r < octave ==> |ss[r]| == scale) &&
            (forall r, c :: 0 <= r < octave && 0 <= c < scale ==>
               ss[r][c].Valid() && ss[r][c].w == ss[r][0].w && ss[r][c].h == ss[r][0].h)
  {
    var ss: seq<seq<Gray>> := ScaleSpace(img, halve, blur, k, octave, scale);
    ScaleSpaceRows(img, halve, blur, k, octave, scale);
    forall r: int | 0 <= r < octave
      ensures |ss[r]| == scale
      ensures forall c: int :: 0 <= c < scale ==>
                ss[r][c].Valid() && ss[r][c].w == ss[r][0].w && ss[r][c].h == ss[r][0].h
    {
      ScaleRowCells(img, halve, blur, k, r, scale);
      forall c: int | 0 <= c < scale
        ensures ss[r][c].Valid() && ss[r][c].w == ss[r][0].w && ss[r][c].h == ss[r][0].h
      {
        ScaleLayerShape(img, halve, blur, k, r, c);
      }
    }
  }

  /** A DoG layer of a table of well-formed rows is well formed, has the
      bounds of its row and holds the per-pixel difference of the two cells
      modulo 256. */
  lemma DoGLayer(ss: seq<seq<Gray>>, octave: nat, scale: int, r: int, c: int, x: int, y: int)
    requires octave <= |ss| && scale >= 1 && forall i :: 0 <= i < octave ==> |ss[i]| >= scale
    requires 0 <= r < octave && 0 <= c < scale - 1
    requires forall j :: 0 <= j < scale ==> ss[r][j].Valid() && ss[r][j].w == ss[r][0].w && ss[r][j].h == ss[r][0].h
    ensures var d := DoG(ss, octave, scale)[r][c];
            d.Valid() && d.w == ss[r][0].w && d.h == ss[r][0].h &&
            (d.InBounds(x, y) ==> d.At(x, y) == (ss[r][c].At(x, y) - ss[r][c + 1].At(x, y)) % 256)
  {
    DoGRows(ss, octave, scale);
    DoGRowCells(ss[r], scale - 1);
    assert DoG(ss, octave, scale)[r][c] == Utils.Subtracted(ss[r][c], ss[r][c + 1]);
    assert ss[r][c + 1].w == ss[r][0].w && ss[r][c + 1].h == ss[r][0].h;
    if Utils.Subtracted(ss[r][c], ss[r][c + 1]).InBounds(x, y) {
      Utils.SubtractedIsMod256(ss[r][c], ss[r][c + 1], x, y);
    }
  }

  /** Each DoG layer of the scale space is well formed, has the bounds of
      the first cell of its row and is the wrapped difference of the cells
      ScaleLayer(r, c) and ScaleLayer(r, c + 1). */
  lemma DoGOfScaleSpace(img: Gray, halve: Gray -> Gray, blur: (Gray, real) -> Gray, k: real,
                        octave: nat, scale: nat, r: int, c: int, x: int, y: int)
    requires img.Valid() && HalvesValid(halve) && BlurKeepsShape(blur)
    requires 0 <= r < octave && 0 <= c < scale - 1
    ensures var ss := ScaleSpace(img, halve, blur, k, octave, scale);
            |ss| == octave && (forall i :: 0 <= i < octave ==> |ss[i]| == scale) &&
            var d := DoG(ss, octave, scale)[r][c];
            d.Valid() && d.w == ScaleLayer(img, halve, blur, k, r, 0).w && d.h == ScaleLayer(img, halve, blur, k, r, 0).h &&
            (d.InBounds(x, y) ==>
               d.At(x, y) == (ScaleLayer(img, halve, blur, k, r, c).At(x, y) - ScaleLayer(img, halve, blur, k, r, c + 1).At(x, y)) % 256)
  {
    ScaleSpaceShape(img, halve, blur, k, octave, scale);
    ScaleSpaceCell(img, halve, blur, k, octave, scale, r, 0);
    ScaleSpaceCell(img, halve, blur, k, octave, scale, r, c);
    ScaleSpaceCell(img, halve, blur, k, octave, scale, r, c + 1);
    DoGLayerOf(ScaleSpace(img, halve, blur, k, octave, scale), octave, scale, r, c, x, y,
               ScaleLayer(img, halve, blur, k, r, 0), ScaleLayer(img, halve, blur, k, r, c),
               ScaleLayer(img, halve, blur, k, r, c + 1));
  }

  /** DoGLayer with the three cells it mentions named. */
  lemma DoGLayerOf(ss: seq<seq<Gray>>, octave: nat, scale: int, r: int, c: int, x: int, y: int,
                   first: Gray, upper: Gray, lower: Gray)
    requires octave <= |ss| && scale >= 1 && forall i :: 0 <= i < octave ==> |ss[i]| >= scale
    requires 0 <= r < octave && 0 <= c < scale - 1
    requires forall j :: 0 <= j < scale ==> ss[r][j].Valid() && ss[r][j].w == ss[r][0].w && ss[r][j].h == ss[r][0].h
    requires ss[r][0] == first && ss[r][c] == upper && ss[r][c + 1] == lower
    ensures var d := DoG(ss, octave, scale)[r][c];
            d.Valid() && d.w == first.w && d.h == first.h &&
            (d.InBounds(x, y) ==> d.At(x, y) == (upper.At(x, y) - lower.At(x, y)) % 256)
  {
    DoGLayer(ss, octave, scale, r, c, x, y);
  }


  // The extremum scan.

  /** The sample of DoG layer (row, col + c) at (x + a, y + b); 0 outside the
      table and, as GrayAt, outside the image. */
  function Neighbour(dog: seq<seq<Gray>>, row: int, col: int, x: int, y: int, a: int, b: int, c: int): byte {
    if 0 <= row < |dog| && 0 <= col + c < |dog[row]| then dog[row][col + c].At(x + a, y + b) else 0
  }

  /** Sample d of the cube in the enumeration order of Create3DDirection. */
  function CubeSample(dog: seq<seq<Gray>>, row: int, col: int, x: int, y: int, d: int): byte {
    Neighbour(dog, row, col, x, y, Utils.DirX(d), Utils.DirY(d), Utils.DirZ(d))
  }

  /** (a, b, c) lies in the cube {-1, 0, 1}^3. */
  predicate IsCubeOffset(a: int, b: int, c: int) {
    Utils.IsUnitOffset(a) && Utils.IsUnitOffset(b) && Utils.IsUnitOffset(c)
  }

  /** localMinimum: no sample of the cube around (x, y) in layers col - 1 ..
      col + 1 lies below the centre. */
  predicate IsLocalMin(dog: seq<seq<Gray>>, row: int, col: int, x: int, y: int) {
    forall a, b, c :: -1 <= a <= 1 && -1 <= b <= 1 && -1 <= c <= 1 ==>
      Neighbour(dog, row, col, x, y, a, b, c) >= Neighbour(dog, row, col, x, y, 0, 0, 0)
  }

  /** localMaximum: no sample of the cube lies above the centre. */
  predicate IsLocalMax(dog: seq<seq<Gray>>, row: int, col: int, x: int, y: int) {
    forall a, b, c :: -1 <= a <= 1 && -1 <= b <= 1 && -1 <= c <= 1 ==>
      Neighbour(dog, row, col, x, y, a, b, c) <= Neighbour(dog, row, col, x, y, 0, 0, 0)
  }

  /** The three slices Create3DDirection returns. */
  predicate IsDirections(dirx: seq<int>, diry: seq<int>, dirz: seq<int>) {
    |dirx| == 27 && |diry| == 27 && |dirz| == 27 &&
    forall d :: 0 <= d < 27 ==> dirx[d] == Utils.DirX(d) && diry[d] == Utils.DirY(d) && dirz[d] == Utils.DirZ(d)
  }

  /** Three slices of 27 cube offsets in which every cube offset (a, b, c)
      sits at position DirIndex(a, b, c). */
  predicate EnumeratesCube(dirx: seq<int>, diry: seq<int>, dirz: seq<int>) {
    |dirx| == 27 && |diry| == 27 && |dirz| == 27 &&
    (forall d :: 0 <= d < 27 ==> IsCubeOffset(dirx[d], diry[d], dirz[d])) &&
    (forall a, b, c :: -1 <= a <= 1 && -1 <= b <= 1 && -1 <= c <= 1 ==>
       0 <= Utils.DirIndex(a, b, c) < 27 &&
       dirx[Utils.DirIndex(a, b, c)] == a && diry[Utils.DirIndex(a, b, c)] == b && dirz[Utils.DirIndex(a, b, c)] == c)
  }

  /** The slices of Create3DDirection enumerate the cube. */
  lemma DirectionsCoverCube(dirx: seq<int>, diry: seq<int>, dirz: seq<int>)
    requires IsDirections(dirx, diry, dirz)
    ensures EnumeratesCube(dirx, diry, dirz)
  {
    forall d | 0 <= d < 27
      ensures IsCubeOffset(dirx[d], diry[d], dirz[d])
    {
      Utils.IndexOfDir(d);
    }
    forall a, b, c | IsCubeOffset(a, b, c)
      ensures 0 <= Utils.DirIndex(a, b, c) < 27
      ensures dirx[Utils.DirIndex(a, b, c)] == a && diry[Utils.DirIndex(a, b, c)] == b && dirz[Utils.DirIndex(a, b, c)] == c
    {
      Utils.DirOfIndex(a, b, c);
    }
  }

  /** The localMinimum closure: a search with early return over the 27
      offsets. */
  method LocalMinimum(dog: seq<seq<Gray>>, dirx: seq<int>, diry: seq<int>, dirz: seq<int>,
                      row: int, col: int, x: int, y: int) returns (b: bool)
    requires EnumeratesCube(dirx, diry, dirz)
    requires 0 <= row < |dog| && 1 <= col && col + 1 < |dog[row]|
    ensures b <==> IsLocalMin(dog, row, col, x, y)
  {
    var pix := dog[row][col].At(x, y);
    assert pix == Neighbour(dog, row, col, x, y, 0, 0, 0);
    var d := 0;
    while d < 27
      invariant 0 <= d <= 27
      invariant forall e :: 0 <= e < d ==> Neighbour(dog, row, col, x, y, dirx[e], diry[e], dirz[e]) >= pix
    {
      assert IsCubeOffset(dirx[d], diry[d], dirz[d]);
      if dog[row][col + dirz[d]].At(x + dirx[d], y + diry[d]) < pix {
        assert Neighbour(dog, row, col, x, y, dirx[d], diry[d], dirz[d]) < pix;
        return false;
      }
      d := d + 1;
    }
    forall a, b, c | -1 <= a <= 1 && -1 <= b <= 1 && -1 <= c <= 1
      ensures Neighbour(dog, row, col, x, y, a, b, c) >= pix
    {
      assert IsCubeOffset(a, b, c);
      var e := Utils.DirIndex(a, b, c);
      assert Neighbour(dog, row, col, x, y, dirx[e], diry[e], dirz[e]) >= pix;
    }
    return true;
  }

  /** The localMaximum closure. */
  method LocalMaximum(dog: seq<seq<Gray>>, dirx: seq<int>, diry: seq<int>, dirz: seq<int>,
                      row: int, col: int, x: int, y: int) returns (b: bool)
    requires EnumeratesCube(dirx, diry, dirz)
    requires 0 <= row < |dog| && 1 <= col && col + 1 < |dog[row]|
    ensures b <==> IsLocalMax(dog, row, col, x, y)
  {
    var pix := dog[row][col].At(x, y);
    assert pix == Neighbour(dog, row, col, x, y, 0, 0, 0);
    var d := 0;
    while d < 27
      invariant 0 <= d <= 27
      invariant forall e :: 0 <= e < d ==> Neighbour(dog, row, col, x, y, dirx[e], diry[e], dirz[e]) <= pix
    {
      assert IsCubeOffset(dirx[d], diry[d], dirz[d]);
      if dog[row][col + dirz[d]].At(x + dirx[d], y + diry[d]) > pix {
        assert Neighbour(dog, row, col, x, y, dirx[d], diry[d], dirz[d]) > pix;
        return false;
      }
      d := d + 1;
    }
    forall a, b, c | -1 <= a <= 1 && -1 <= b <= 1 && -1 <= c <= 1
      ensures Neighbour(dog, row, col, x, y, a, b, c) <= pix
    {
      assert IsCubeOffset(a, b, c);
      var e := Utils.DirIndex(a, b, c);
      assert Neighbour(dog, row, col, x, y, dirx[e], diry[e], dirz[e]) <= pix;
    }
    return true;
  }

  /** The cube test is the test over the 27 offsets of Create3DDirection,
      in both directions: the centre is a minimum exactly when none of the
      samples d = 0 .. 26 lies below it. */
  lemma CubeMinIsEnumeratedMin(dog: seq<seq<Gray>>, row: int, col: int, x: int, y: int)
    ensures IsLocalMin(dog, row, col, x, y) <==>
              forall d :: 0 <= d < 27 ==> CubeSample(dog, row, col, x, y, d) >= Neighbour(dog, row, col, x, y, 0, 0, 0)
  {
    var centre := Neighbour(dog, row, col, x, y, 0, 0, 0);
    if IsLocalMin(dog, row, col, x, y) {
      forall d | 0 <= d < 27
        ensures CubeSample(dog, row, col, x, y, d) >= centre
      {
        Utils.IndexOfDir(d);
      }
    }
    if forall d :: 0 <= d < 27 ==> CubeSample(dog, row, col, x, y, d) >= centre {
      forall a, b, c | -1 <= a <= 1 && -1 <= b <= 1 && -1 <= c <= 1
        ensures Neighbour(dog, row, col, x, y, a, b, c) >= centre
      {
        Utils.DirOfIndex(a, b, c);
        assert CubeSample(dog, row, col, x, y, Utils.DirIndex(a, b, c)) >= centre;
      }
    }
  }

  /** The same for a maximum. */
  lemma CubeMaxIsEnumeratedMax(dog: seq<seq<Gray>>, row: int, col: int, x: int, y: int)
    ensures IsLocalMax(dog, row, col, x, y) <==>
              forall d :: 0 <= d < 27 ==> CubeSample(dog, row, col, x, y, d) <= Neighbour(dog, row, col, x, y, 0, 0, 0)
  {
    var centre := Neighbour(dog, row, col, x, y, 0, 0, 0);
    if IsLocalMax(dog, row, col, x, y) {
      forall d | 0 <= d < 27
        ensures CubeSample(dog, row, col, x, y, d) <= centre
      {
        Utils.IndexOfDir(d);
      }
    }
    if forall d :: 0 <= d < 27 ==> CubeSample(dog, row, col, x, y, d) <= centre {
      forall a, b, c | -1 <= a <= 1 && -1 <= b <= 1 && -1 <= c <= 1
        ensures Neighbour(dog, row, col, x, y, a, b, c) <= centre
      {
        Utils.DirOfIndex(a, b, c);
        assert CubeSample(dog, row, col, x, y, Utils.DirIndex(a, b, c)) <= centre;
      }
    }
  }

  /** The early return of the per-pixel closure: the outermost ring. */
  predicate OnBorder(layer: Gray, x: int, y: int) {
    x == 0 || y == 0 || x + 1 >= layer.w || y + 1 >= layer.h
  }

  /** Pixel (x, y) of DoG layer (row, col) is appended by extractKeyPoints. */
  predicate IsCandidate(dog: seq<seq<Gray>>, row: int, col: int, x: int, y: int)
    requires 0 <= row < |dog| && 0 <= col < |dog[row]|
  {
    !OnBorder(dog[row][col], x, y) && (IsLocalMin(dog, row, col, x, y) || IsLocalMax(dog, row, col, x, y))
  }

  /** What the closure appends for pixel p. */
  function PixelCandidates(dog: seq<seq<Gray>>, row: int, col: int, p: Point): seq<KeyPoint>
    requires 0 <= row < |dog| && 0 <= col < |dog[row]|
  {
    if IsCandidate(dog, row, col, p.x, p.y) then [KeyPoint(row, col, p.x, p.y)] else []
  }

  /** The candidates of layer (row, col) among the pixels `pts`, in order. */
  function ScanPixels(dog: seq<seq<Gray>>, row: int, col: int, pts: seq<Point>): seq<KeyPoint>
    requires 0 <= row < |dog| && 0 <= col < |dog[row]|
    decreases |pts|
  {
    if |pts| == 0 then []
    else ScanPixels(dog, row, col, pts[..|pts| - 1]) + PixelCandidates(dog, row, col, pts[|pts| - 1])
  }

  /** The candidates of column x of layer (row, col), rows 0 .. h - 1. */
  function ColumnScan(dog: seq<seq<Gray>>, row: int, col: int, x: int, h: int): seq<KeyPoint>
    requires 0 <= row < |dog| && 0 <= col < |dog[row]|
    decreases h
  {
    if h <= 0 then [] else ColumnScan(dog, row, col, x, h - 1) + PixelCandidates(dog, row, col, Point(x, h - 1))
  }

  /** The candidates of columns 0 .. w - 1 of layer (row, col). */
  function GridScan(dog: seq<seq<Gray>>, row: int, col: int, w: int, h: int): seq<KeyPoint>
    requires 0 <= row < |dog| && 0 <= col < |dog[row]|
    decreases w
  {
    if w <= 0 then [] else GridScan(dog, row, col, w - 1, h) + ColumnScan(dog, row, col, w - 1, h)
  }

  /** The candidates of one DoG layer, column by column as ForEachPixel
      visits them. */
  function LayerCandidates(dog: seq<seq<Gray>>, row: int, col: int): seq<KeyPoint>
    requires 0 <= row < |dog| && 0 <= col < |dog[row]|
  {
    GridScan(dog, row, col, dog[row][col].w, dog[row][col].h)
  }

  /** The candidates of layers 1 .. n - 1 of one row. */
  function RowCandidates(dog: seq<seq<Gray>>, row: int, n: int): seq<KeyPoint>
    requires 0 <= row < |dog| && (n <= 1 || n <= |dog[row]|)
    decreases n
  {
    if n <= 1 then [] else RowCandidates(dog, row, n - 1) + LayerCandidates(dog, row, n - 1)
  }

  /** extractKeyPoints' result for rows 0 .. n - 1: layers 1 .. scale - 3 of
      each row. */
  function Candidates(dog: seq<seq<Gray>>, n: nat, scale: int): seq<KeyPoint>
    requires n <= |dog| && forall r :: 0 <= r < n ==> |dog[r]| >= scale - 2
    decreases n
  {
    if n == 0 then [] else Candidates(dog, n - 1, scale) + RowCandidates(dog, n - 1, scale - 2)
  }

  /** The per-pixel closure of extractKeyPoints over the ForEachPixel visits
      of one layer. */
  method ScanLayer(dog: seq<seq<Gray>>, dirx: seq<int>, diry: seq<int>, dirz: seq<int>, row: int, col: int)
    returns (found: seq<KeyPoint>)
    requires EnumeratesCube(dirx, diry, dirz)
    requires 0 <= row < |dog| && 1 <= col && col + 1 < |dog[row]|
    ensures found == LayerCandidates(dog, row, col)
  {
    var bound := Point(dog[row][col].w, dog[row][col].h);
    var visits := Utils.ForEachPixel(bound);
    found := [];
    var i := 0;
    while i < |visits|
      invariant 0 <= i <= |visits| && found == ScanPixels(dog, row, col, visits[..i])
    {
      var x, y := visits[i].x, visits[i].y;
      assert visits[..i + 1][..i] == visits[..i];
      if !(x == 0 || y == 0 || x + 1 >= dog[row][col].w || y + 1 >= dog[row][col].h) {
        var isMin := LocalMinimum(dog, dirx, diry, dirz, row, col, x, y);
        var isMax := LocalMaximum(dog, dirx, diry, dirz, row, col, x, y);
        if isMin || isMax {
          found := found + [KeyPoint(row, col, x, y)];
        }
      }
      i := i + 1;
    }
    assert visits[..|visits|] == visits;
    ScanPixelsOfPixelOrder(dog, row, col, bound.x, bound.y);
  }

  /** The layer loop of extractKeyPoints for one row: layers 1 .. scale - 3. */
  method ScanRow(dog: seq<seq<Gray>>, dirx: seq<int>, diry: seq<int>, dirz: seq<int>, row: int, scale: int)
    returns (found: seq<KeyPoint>)
    requires EnumeratesCube(dirx, diry, dirz)
    requires 0 <= row < |dog| && |dog[row]| >= scale - 1
    ensures found == RowCandidates(dog, row, scale - 2)
  {
    found := [];
    if scale - 2 <= 1 {
      return;
    }
    for col := 1 to scale - 2
      invariant found == RowCandidates(dog, row, col)
    {
      found := ScanNextLayer(dog, dirx, diry, dirz, row, col, found);
    }
  }

  /** The body of the column loop: the scan of layer col appended to the
      candidates of the layers before it. */
  method ScanNextLayer(dog: seq<seq<Gray>>, dirx: seq<int>, diry: seq<int>, dirz: seq<int>, row: int, col: int,
                       found: seq<KeyPoint>)
    returns (next: seq<KeyPoint>)
    requires EnumeratesCube(dirx, diry, dirz)
    requires 0 <= row < |dog| && 1 <= col && col + 1 < |dog[row]|
    requires found == RowCandidates(dog, row, col)
    ensures next == RowCandidates(dog, row, col + 1)
  {
    var layer := ScanLayer(dog, dirx, diry, dirz, row, col);
    next := found + layer;
  }

  /** The three direction slices, as the cube enumeration the closures use. */
  method CubeDirections() returns (dirx: seq<int>, diry: seq<int>, dirz: seq<int>)
    ensures EnumeratesCube(dirx, diry, dirz)
  {
    dirx, diry, dirz := Utils.Create3DDirection();
    DirectionsCoverCube(dirx, diry, dirz);
  }

  /** extractKeyPoints. */
  method ExtractKeyPoints(octave: nat, scale: int, dog: seq<seq<Gray>>) returns (candidateKeys: seq<KeyPoint>)
    requires octave <= |dog| && forall r :: 0 <= r < octave ==> |dog[r]| >= scale - 1
    ensures candidateKeys == Candidates(dog, octave, scale)
  {
    var dirx, diry, dirz := CubeDirections();
    candidateKeys := [];
    var row := 0;
    while row < octave
      invariant 0 <= row <= octave && candidateKeys == Candidates(dog, row, scale)
    {
      var found := ScanRow(dog, dirx, diry, dirz, row, scale);
      candidateKeys := candidateKeys + found;
      row := row + 1;
    }
  }

  // Properties of the candidate scan.

  /** Scanning a concatenation of pixel lists scans each in turn. */
  lemma {:induction false} ScanPixelsAppend(dog: seq<seq<Gray>>, row: int, col: int, a: seq<Point>, b: seq<Point>)
    requires 0 <= row < |dog| && 0 <= col < |dog[row]|
    ensures ScanPixels(dog, row, col, a + b) == ScanPixels(dog, row, col, a) + ScanPixels(dog, row, col, b)
    decreases |b|
  {
    if |b| == 0 {
      assert a + b == a;
    } else {
      var init := b[..|b| - 1];
      assert (a + b)[..|a + b| - 1] == a + init;
      ScanPixelsAppend(dog, row, col, a, init);
    }
  }

  /** ScanPixelsAppend with the two scans named. */
  lemma ScanPixelsGlue(dog: seq<seq<Gray>>, row: int, col: int, pts: seq<Point>, a: seq<Point>, b: seq<Point>,
                       sa: seq<KeyPoint>, sb: seq<KeyPoint>)
    requires 0 <= row < |dog| && 0 <= col < |dog[row]|
    requires pts == a + b && ScanPixels(dog, row, col, a) == sa && ScanPixels(dog, row, col, b) == sb
    ensures ScanPixels(dog, row, col, pts) == sa + sb
  {
    ScanPixelsAppend(dog, row, col, a, b);
  }

  /** Scanning a column of ForEachPixel is the column scan. */
  lemma {:induction false} ScanPixelsColumn(dog: seq<seq<Gray>>, row: int, col: int, x: int, h: int)
    requires 0 <= row < |dog| && 0 <= col < |dog[row]|
    ensures ScanPixels(dog, row, col, Utils.Column(x, h)) == ColumnScan(dog, row, col, x, h)
    decreases h
  {
    if h > 0 {
      assert Utils.Column(x, h)[..h - 1] == Utils.Column(x, h - 1);
      ScanPixelsColumn(dog, row, col, x, h - 1);
    }
  }

  /** Scanning the visits of ForEachPixel in call order is the column by
      column scan of the layer. */
  lemma {:induction false} ScanPixelsOfPixelOrder(dog: seq<seq<Gray>>, row: int, col: int, w: int, h: int)
    requires 0 <= row < |dog| && 0 <= col < |dog[row]|
    ensures ScanPixels(dog, row, col, Utils.PixelOrder(w, h)) == GridScan(dog, row, col, w, h)
    decreases w
  {
    if w > 0 {
      ScanPixelsOfPixelOrder(dog, row, col, w - 1, h);
      ScanPixelsColumn(dog, row, col, w - 1, h);
      ScanPixelsGlue(dog, row, col, Utils.PixelOrder(w, h), Utils.PixelOrder(w - 1, h), Utils.Column(w - 1, h),
                     GridScan(dog, row, col, w - 1, h), ColumnScan(dog, row, col, w - 1, h));
    }
  }

  /** A key point is found among the pixels `pts` exactly when it records
      layer (row, col) and one of the pixels, and that pixel is a candidate. */
  lemma {:induction false} ScanPixelsMembers(dog: seq<seq<Gray>>, row: int, col: int, pts: seq<Point>, kp: KeyPoint)
    requires 0 <= row < |dog| && 0 <= col < |dog[row]|
    ensures kp in ScanPixels(dog, row, col, pts) <==>
              kp.octave == row && kp.scale == col && Point(kp.x, kp.y) in pts && IsCandidate(dog, row, col, kp.x, kp.y)
    decreases |pts|
  {
    if |pts| > 0 {
      var init := pts[..|pts| - 1];
      ScanPixelsMembers(dog, row, col, init, kp);
      assert pts == init + [pts[|pts| - 1]];
    }
  }

  /** The candidates of one layer are its candidate pixels, each recorded
      with the layer's (row, col). */
  lemma LayerMembers(dog: seq<seq<Gray>>, row: int, col: int, kp: KeyPoint)
    requires 0 <= row < |dog| && 0 <= col < |dog[row]|
    ensures kp in LayerCandidates(dog, row, col) <==>
              kp.octave == row && kp.scale == col && dog[row][col].InBounds(kp.x, kp.y) &&
              IsCandidate(dog, row, col, kp.x, kp.y)
  {
    var layer := dog[row][col];
    ScanPixelsOfPixelOrder(dog, row, col, layer.w, layer.h);
    ScanPixelsMembers(dog, row, col, Utils.PixelOrder(layer.w, layer.h), kp);
    Utils.InPixelOrder(layer.w, layer.h, Point(kp.x, kp.y));
  }

  /** The candidates of layers 1 .. n - 1 of one row. */
  lemma {:induction false} RowMembers(dog: seq<seq<Gray>>, row: int, n: int, kp: KeyPoint)
    requires 0 <= row < |dog| && (n <= 1 || n <= |dog[row]|)
    ensures kp in RowCandidates(dog, row, n) <==>
              kp.octave == row && 1 <= kp.scale < n && dog[row][kp.scale].InBounds(kp.x, kp.y) &&
              IsCandidate(dog, row, kp.scale, kp.x, kp.y)
    decreases n
  {
    if n > 1 {
      RowMembers(dog, row, n - 1, kp);
      LayerMembers(dog, row, n - 1, kp);
    }
  }

  /** extractKeyPoints finds exactly the candidate pixels of DoG layers
      1 .. scale - 3 of every row below n, each recorded with its row and
      layer: nothing else, and no candidate is missed. */
  lemma {:induction false} CandidatesMembers(dog: seq<seq<Gray>>, n: nat, scale: int, kp: KeyPoint)
    requires n <= |dog| && forall r :: 0 <= r < n ==> |dog[r]| >= scale - 2
    ensures kp in Candidates(dog, n, scale) <==>
              0 <= kp.octave < n && 1 <= kp.scale < scale - 2 &&
              dog[kp.octave][kp.scale].InBounds(kp.x, kp.y) && IsCandidate(dog, kp.octave, kp.scale, kp.x, kp.y)
    decreases n
  {
    if n > 0 {
      CandidatesMembers(dog, n - 1, scale, kp);
      RowMembers(dog, n - 1, scale - 2, kp);
    }
  }

  /** Every candidate lies off the outermost ring of its layer, and its
      neighbour layers col - 1 and col + 1 exist in a DoG row of scale - 1
      layers. */
  lemma CandidatesInterior(dog: seq<seq<Gray>>, octave: nat, scale: int, kp: KeyPoint)
    requires octave <= |dog| && forall r :: 0 <= r < octave ==> |dog[r]| == scale - 1
    requires kp in Candidates(dog, octave, scale)
    ensures 0 <= kp.octave < octave && 1 <= kp.scale && kp.scale + 1 < |dog[kp.octave]|
    ensures 1 <= kp.x < dog[kp.octave][kp.scale].w - 1 && 1 <= kp.y < dog[kp.octave][kp.scale].h - 1
  {
    CandidatesMembers(dog, octave, scale, kp);
  }

  /** A pixel whose 27 cube samples all equal its own value is both a local
      minimum and a local maximum, so an off-ring pixel of a flat
      neighbourhood is a candidate. */
  lemma FlatIsCandidate(dog: seq<seq<Gray>>, row: int, col: int, x: int, y: int)
    requires 0 <= row < |dog| && 0 <= col < |dog[row]| && !OnBorder(dog[row][col], x, y)
    requires forall a, b, c :: -1 <= a <= 1 && -1 <= b <= 1 && -1 <= c <= 1 ==>
               Neighbour(dog, row, col, x, y, a, b, c) == Neighbour(dog, row, col, x, y, 0, 0, 0)
    ensures IsLocalMin(dog, row, col, x, y) && IsLocalMax(dog, row, col, x, y)
    ensures IsCandidate(dog, row, col, x, y)
  {
  }

  /** Constant layers col - 1 .. col + 1 of one size make every off-ring
      pixel of layer col a candidate. */
  lemma UniformLayersAreCandidates(dog: seq<seq<Gray>>, row: int, col: int, v: byte, x: int, y: int)
    requires 0 <= row < |dog| && 1 <= col && col + 1 < |dog[row]|
    requires forall l :: col - 1 <= l <= col + 1 ==> dog[row][l].w == dog[row][col].w && dog[row][l].h == dog[row][col].h
    requires forall l, i, j :: col - 1 <= l <= col + 1 && dog[row][l].InBounds(i, j) ==> dog[row][l].At(i, j) == v
    requires 0 <= x && 0 <= y && !OnBorder(dog[row][col], x, y)
    ensures IsCandidate(dog, row, col, x, y)
  {
    forall a, b, c | -1 <= a <= 1 && -1 <= b <= 1 && -1 <= c <= 1
      ensures Neighbour(dog, row, col, x, y, a, b, c) == v
    {
      var l := col + c;
      assert dog[row][l].InBounds(x + a, y + b);
    }
    assert Neighbour(dog, row, col, x, y, 0, 0, 0) == v;
    FlatIsCandidate(dog, row, col, x, y);
  }

  /** The row and layer range every found key point records. */
  lemma RowOrigins(dog: seq<seq<Gray>>, row: int, n: int)
    requires 0 <= row < |dog| && (n <= 1 || n <= |dog[row]|)
    ensures forall i :: 0 <= i < |RowCandidates(dog, row, n)| ==>
              RowCandidates(dog, row, n)[i].octave == row && 1 <= RowCandidates(dog, row, n)[i].scale < n
  {
    forall i | 0 <= i < |RowCandidates(dog, row, n)|
      ensures RowCandidates(dog, row, n)[i].octave == row && 1 <= RowCandidates(dog, row, n)[i].scale < n
    {
      RowMembers(dog, row, n, RowCandidates(dog, row, n)[i]);
    }
  }

  lemma LayerOrigins(dog: seq<seq<Gray>>, row: int, col: int)
    requires 0 <= row < |dog| && 0 <= col < |dog[row]|
    ensures forall i :: 0 <= i < |LayerCandidates(dog, row, col)| ==>
              LayerCandidates(dog, row, col)[i].octave == row && LayerCandidates(dog, row, col)[i].scale == col
  {
    forall i | 0 <= i < |LayerCandidates(dog, row, col)|
      ensures LayerCandidates(dog, row, col)[i].octave == row && LayerCandidates(dog, row, col)[i].scale == col
    {
      LayerMembers(dog, row, col, LayerCandidates(dog, row, col)[i]);
    }
  }

  lemma CandidateOrigins(dog: seq<seq<Gray>>, n: nat, scale: int)
    requires n <= |dog| && forall r :: 0 <= r < n ==> |dog[r]| >= scale - 2
    ensures forall i :: 0 <= i < |Candidates(dog, n, scale)| ==> 0 <= Candidates(dog, n, scale)[i].octave < n
  {
    forall i | 0 <= i < |Candidates(dog, n, scale)|
      ensures 0 <= Candidates(dog, n, scale)[i].octave < n
    {
      CandidatesMembers(dog, n, scale, Candidates(dog, n, scale)[i]);
    }
  }

  /** Candidates are ordered by octave, then layer, then x, then y. */
  predicate Before(p: KeyPoint, q: KeyPoint) {
    p.octave < q.octave ||
    (p.octave == q.octave && (p.scale < q.scale ||
    (p.scale == q.scale && Utils.PointBefore(Point(p.x, p.y), Point(q.x, q.y)))))
  }

  predicate Ascending(s: seq<KeyPoint>) {
    forall i, j :: 0 <= i < j < |s| ==> Before(s[i], s[j])
  }

  predicate PointsAscending(pts: seq<Point>) {
    forall i, j :: 0 <= i < j < |pts| ==> Utils.PointBefore(pts[i], pts[j])
  }

  /** Two ascending runs, the first wholly before the second, concatenate to
      an ascending run. */
  lemma AscendingConcat(s: seq<KeyPoint>, t: seq<KeyPoint>)
    requires Ascending(s) && Ascending(t)
    requires forall i, j :: 0 <= i < |s| && 0 <= j < |t| ==> Before(s[i], t[j])
    ensures Ascending(s + t)
  {
    forall i, j | 0 <= i < j < |s + t|
      ensures Before((s + t)[i], (s + t)[j])
    {
      if j < |s| {
        assert (s + t)[i] == s[i] && (s + t)[j] == s[j];
      } else if i < |s| {
        assert (s + t)[i] == s[i] && (s + t)[j] == t[j - |s|];
      } else {
        assert (s + t)[i] == t[i - |s|] && (s + t)[j] == t[j - |s|];
      }
    }
  }

  /** Runs of ascending key points, the first from earlier octaves (or from
      earlier layers of the same octave) than the second. */
  lemma OctavesAscending(s: seq<KeyPoint>, t: seq<KeyPoint>, n: int)
    requires Ascending(s) && Ascending(t)
    requires forall i :: 0 <= i < |s| ==> s[i].octave < n
    requires forall j :: 0 <= j < |t| ==> t[j].octave == n
    ensures Ascending(s + t)
  {
    AscendingConcat(s, t);
  }

  lemma LayersAscending(s: seq<KeyPoint>, t: seq<KeyPoint>, row: int, n: int)
    requires Ascending(s) && Ascending(t)
    requires forall i :: 0 <= i < |s| ==> s[i].octave == row && s[i].scale < n
    requires forall j :: 0 <= j < |t| ==> t[j].octave == row && t[j].scale == n
    ensures Ascending(s + t)
  {
    AscendingConcat(s, t);
  }

  /** Scanning pixels in ascending order finds candidates in ascending order. */
  lemma {:induction false} ScanPixelsAscending(dog: seq<seq<Gray>>, row: int, col: int, pts: seq<Point>)
    requires 0 <= row < |dog| && 0 <= col < |dog[row]| && PointsAscending(pts)
    ensures Ascending(ScanPixels(dog, row, col, pts))
    decreases |pts|
  {
    if |pts| > 0 {
      var init, last := pts[..|pts| - 1], pts[|pts| - 1];
      assert PointsAscending(init) by {
        forall i, j | 0 <= i < j < |init|
          ensures Utils.PointBefore(init[i], init[j])
        {
          assert init[i] == pts[i] && init[j] == pts[j];
        }
      }
      ScanPixelsAscending(dog, row, col, init);
      var found := ScanPixels(dog, row, col, init);
      forall i, j | 0 <= i < |found| && 0 <= j < |PixelCandidates(dog, row, col, last)|
        ensures Before(found[i], PixelCandidates(dog, row, col, last)[j])
      {
        var p := found[i];
        ScanPixelsMembers(dog, row, col, init, p);
        var k :| 0 <= k < |init| && init[k] == Point(p.x, p.y);
        assert pts[k] == init[k];
      }
      AscendingConcat(ScanPixels(dog, row, col, init), PixelCandidates(dog, row, col, last));
    }
  }

  /** The candidates of one layer come in ForEachPixel order. */
  lemma LayerAscending(dog: seq<seq<Gray>>, row: int, col: int)
    requires 0 <= row < |dog| && 0 <= col < |dog[row]|
    ensures Ascending(LayerCandidates(dog, row, col))
  {
    var layer := dog[row][col];
    forall i, j | 0 <= i < j < |Utils.PixelOrder(layer.w, layer.h)|
      ensures Utils.PointBefore(Utils.PixelOrder(layer.w, layer.h)[i], Utils.PixelOrder(layer.w, layer.h)[j])
    {
      Utils.PixelOrderAscending(layer.w, layer.h, i, j);
    }
    ScanPixelsAscending(dog, row, col, Utils.PixelOrder(layer.w, layer.h));
    ScanPixelsOfPixelOrder(dog, row, col, layer.w, layer.h);
  }

  lemma {:induction false} RowAscending(dog: seq<seq<Gray>>, row: int, n: int)
    requires 0 <= row < |dog| && (n <= 1 || n <= |dog[row]|)
    ensures Ascending(RowCandidates(dog, row, n))
    decreases n
  {
    if n > 1 {
      RowAscending(dog, row, n - 1);
      LayerAscending(dog, row, n - 1);
      RowOrigins(dog, row, n - 1);
      LayerOrigins(dog, row, n - 1);
      LayersAscending(RowCandidates(dog, row, n - 1), LayerCandidates(dog, row, n - 1), row, n - 1);
    }
  }

  lemma {:induction false} CandidatesAscending(dog: seq<seq<Gray>>, n: nat, scale: int)
    requires n <= |dog| && forall r :: 0 <= r < n ==> |dog[r]| >= scale - 2
    ensures Ascending(Candidates(dog, n, scale))
    decreases n
  {
    if n > 0 {
      var prev := Candidates(dog, n - 1, scale);
      var last := RowCandidates(dog, n - 1, scale - 2);
      CandidatesAscending(dog, n - 1, scale);
      RowAscending(dog, n - 1, scale - 2);
      CandidateOrigins(dog, n - 1, scale);
      RowOrigins(dog, n - 1, scale - 2);
      OctavesAscending(prev, last, n - 1);
    }
  }

  /** extractKeyPoints lists its candidates strictly ascending by octave,
      layer, x and y, so none is listed twice. */
  lemma CandidatesOrdered(dog: seq<seq<Gray>>, octave: nat, scale: int)
    requires octave <= |dog| && forall r :: 0 <= r < octave ==> |dog[r]| >= scale - 2
    ensures var c := Candidates(dog, octave, scale);
            Ascending(c) && forall i, j :: 0 <= i < j < |c| ==> c[i] != c[j]
  {
    CandidatesAscending(dog, octave, scale);
  }
}
