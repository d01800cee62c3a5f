/** sift/sift_feature.go, second half: the gradient slots createGradientSpec
    fills, gradianSpec.normalize, filterKeyPoints and SiftFeatures, which
    chains the whole stage. */
module SiftGradient {
  import opened Images
  import Convolution
  import Gradient
  import Sift

  // Floating-point values of the normalised magnitudes.

  /** A float64 as normalize can leave it: a finite value, NaN, or an
      infinity. Signed zero is not told apart from zero. */
  datatype Float = Num(r: real) | NaN | PosInf | NegInf

  /** math.Max: +Inf wins over everything, then NaN, and otherwise the
      larger value (y when they are equal). */
  function Max(x: Float, y: Float): (m: Float)
    ensures x.PosInf? || y.PosInf? ==> m.PosInf?
    ensures !x.PosInf? && !y.PosInf? && (x.NaN? || y.NaN?) ==> m.NaN?
    ensures x.Num? && y.Num? ==> m.Num? && m.r >= x.r && m.r >= y.r && (m.r == x.r || m.r == y.r)
  {
    if x.PosInf? || y.PosInf? then PosInf
    else if x.NaN? || y.NaN? then NaN
    else if x.NegInf? then y
    else if y.NegInf? then x
    else if x.r > y.r then x else y
  }

  /** IEEE division `a / m`. A zero divisor is taken to be +0: normalize
      divides by a maximum that starts at +0 and math.Max never lowers it to
      -0. Rounding is not modelled. */
  function Div(a: Float, m: Float): (q: Float)
    ensures a.NaN? || m.NaN? ==> q.NaN?
    ensures a.Num? && m.Num? && m.r != 0.0 ==> q == Num(a.r / m.r)
    ensures a.Num? && m.Num? && m.r == 0.0 ==> (q.NaN? <==> a.r == 0.0) && (q.PosInf? <==> a.r > 0.0) && (q.NegInf? <==> a.r < 0.0)
  {
    match (a, m)
    case (NaN, _) => NaN
    case (_, NaN) => NaN
    case (Num(x), Num(y)) =>
      if y != 0.0 then Num(x / y) else if x == 0.0 then NaN else if x > 0.0 then PosInf else NegInf
    case (Num(_), _) => Num(0.0)
    case (PosInf, Num(y)) => if y < 0.0 then NegInf else PosInf
    case (NegInf, Num(y)) => if y < 0.0 then PosInf else NegInf
    case (_, _) => NaN
  }

  /** Every entry of the grid is finite. */
  predicate Finite(g: seq<seq<Float>>) {
    forall i, j :: 0 <= i < |g| && 0 <= j < |g[i]| ==> g[i][j].Num?
  }

  /** The running maximum after the entries of `row`, from m. */
  function RowMax(m: Float, row: seq<Float>): Float
    decreases |row|
  {
    if |row| == 0 then m else Max(RowMax(m, row[..|row| - 1]), row[|row| - 1])
  }

  /** The running maximum after the rows of `g`, in range order, from m. */
  function GridMax(m: Float, g: seq<seq<Float>>): Float
    decreases |g|
  {
    if |g| == 0 then m else RowMax(GridMax(m, g[..|g| - 1]), g[|g| - 1])
  }

  /** The maximum normalize computes, starting from 0.0. */
  function Peak(g: seq<seq<Float>>): Float {
    GridMax(Num(0.0), g)
  }

  function DivRow(row: seq<Float>, m: Float): seq<Float> {
    seq(|row|, j requires 0 <= j < |row| => Div(row[j], m))
  }

  /** The magnitudes after normalize: every entry divided by the peak. */
  function Normalized(g: seq<seq<Float>>): seq<seq<Float>> {
    var m := Peak(g);
    seq(|g|, i requires 0 <= i < |g| => DivRow(g[i], m))
  }

  /** gradianSpec: the magnitude and direction grids of one DoG layer,
      normalised in place. */
  class GradianSpec {
    var g: seq<seq<Float>>
    var theta: seq<seq<real>>

    constructor(g0: seq<seq<Float>>, theta0: seq<seq<real>>)
      ensures g == g0 && theta == theta0
    {
      g := g0;
      theta := theta0;
    }

    /** normalize: the maximum over all rows, then every entry divided by it. */
    method Normalize()
      modifies this
      ensures g == Normalized(old(g)) && theta == old(theta)
    {
      var max := Num(0.0);
      var i := 0;
      while i < |g|
        invariant 0 <= i <= |g| && g == old(g) && theta == old(theta)
        invariant max == GridMax(Num(0.0), g[..i])
      {
        max := RowMaximum(max, g[i]);
        assert g[..i + 1][..i] == g[..i];
        i := i + 1;
      }
      assert g[..i] == g;
      ghost var g0 := g;
      i := 0;
      while i < |g|
        invariant |g| == |g0| && 0 <= i <= |g0| && theta == old(theta)
        invariant forall r :: 0 <= r < i ==> g[r] == DivRow(g0[r], max)
        invariant forall r :: i <= r < |g0| ==> g[r] == g0[r]
      {
        var j := 0;
        while j < |g[i]|
          invariant |g| == |g0| && 0 <= j <= |g0[i]| && |g[i]| == |g0[i]| && theta == old(theta)
          invariant forall r :: 0 <= r < i ==> g[r] == DivRow(g0[r], max)
          invariant forall r :: i < r < |g0| ==> g[r] == g0[r]
          invariant forall c :: 0 <= c < j ==> g[i][c] == Div(g0[i][c], max)
          invariant forall c :: j <= c < |g0[i]| ==> g[i][c] == g0[i][c]
        {
          g := g[i := g[i][j := Div(g[i][j], max)]];
          j := j + 1;
        }
        assert g[i] == DivRow(g0[i], max);
        i := i + 1;
      }
      assert g == Normalized(g0);
    }
  }

  /** The inner loop of the maximum: math.Max over one row. */
  method RowMaximum(m: Float, row: seq<Float>) returns (max: Float)
    ensures max == RowMax(m, row)
  {
    max := m;
    var j := 0;
    while j < |row|
      invariant 0 <= j <= |row| && max == RowMax(m, row[..j])
    {
      assert row[..j + 1][..j] == row[..j];
      max := Max(max, row[j]);
      j := j + 1;
    }
    assert row[..j] == row;
  }

  // Properties of the normalisation.

  /** Over finite entries the running maximum is finite, at least its start
      and every entry, and equal to the start or to one of the entries. */
  lemma {:induction false} RowMaxBounds(m: Float, row: seq<Float>)
    requires m.Num? && forall j :: 0 <= j < |row| ==> row[j].Num?
    ensures RowMax(m, row).Num? && RowMax(m, row).r >= m.r
    ensures forall j :: 0 <= j < |row| ==> RowMax(m, row).r >= row[j].r
    ensures RowMax(m, row) == m || exists j :: 0 <= j < |row| && RowMax(m, row) == row[j]
    decreases |row|
  {
    if |row| > 0 {
      var init := row[..|row| - 1];
      RowMaxBounds(m, init);
      if RowMax(m, row) != m && RowMax(m, row) != row[|row| - 1] {
        var j :| 0 <= j < |init| && RowMax(m, init) == init[j];
        assert RowMax(m, row) == row[j];
      }
    }
  }

  lemma {:induction false} GridMaxBounds(m: Float, g: seq<seq<Float>>)
    requires m.Num? && Finite(g)
    ensures GridMax(m, g).Num? && GridMax(m, g).r >= m.r
    ensures forall i, j :: 0 <= i < |g| && 0 <= j < |g[i]| ==> GridMax(m, g).r >= g[i][j].r
    ensures GridMax(m, g) == m || exists i, j :: 0 <= i < |g| && 0 <= j < |g[i]| && GridMax(m, g) == g[i][j]
    decreases |g|
  {
    if |g| > 0 {
      var init, last := g[..|g| - 1], g[|g| - 1];
      assert Finite(init) by {
        forall i, j | 0 <= i < |init| && 0 <= j < |init[i]|
          ensures init[i][j].Num?
        {
          assert init[i] == g[i];
        }
      }
      GridMaxBounds(m, init);
      RowMaxBounds(GridMax(m, init), last);
      forall i, j | 0 <= i < |g| && 0 <= j < |g[i]|
        ensures GridMax(m, g).r >= g[i][j].r
      {
        if i < |init| {
          assert g[i] == init[i];
        }
      }
      if GridMax(m, g) != m && GridMax(m, g) != GridMax(m, init) {
        var j :| 0 <= j < |last| && GridMax(m, g) == last[j];
        assert g[|g| - 1][j] == GridMax(m, g);
      } else if GridMax(m, g) != m {
        var i, j :| 0 <= i < |init| && 0 <= j < |init[i]| && GridMax(m, init) == init[i][j];
        assert g[i][j] == init[i][j];
      }
    }
  }

  /** The peak of a finite grid is finite, non-negative and at least every
      entry, and a positive peak is one of the entries. */
  lemma PeakBounds(g: seq<seq<Float>>)
    requires Finite(g)
    ensures Peak(g).Num? && Peak(g).r >= 0.0
    ensures forall i, j :: 0 <= i < |g| && 0 <= j < |g[i]| ==> g[i][j].r <= Peak(g).r
    ensures Peak(g).r > 0.0 ==> exists i, j :: 0 <= i < |g| && 0 <= j < |g[i]| && g[i][j] == Peak(g)
  {
    GridMaxBounds(Num(0.0), g);
  }

  /** Entry (i, j) after normalize is entry (i, j) divided by the peak. */
  lemma NormalizedAt(g: seq<seq<Float>>, i: int, j: int)
    requires 0 <= i < |g| && 0 <= j < |g[i]|
    ensures |Normalized(g)| == |g| && |Normalized(g)[i]| == |g[i]|
    ensures Normalized(g)[i][j] == Div(g[i][j], Peak(g))
  {
    assert Normalized(g)[i] == DivRow(g[i], Peak(g));
  }

  /** After normalize the grid keeps its shape; with a positive peak every
      entry is finite and at most 1, a peak entry becomes exactly 1, and
      non-negative magnitudes stay non-negative. */
  lemma NormalizedBounds(g: seq<seq<Float>>)
    requires Finite(g) && Peak(g).Num? && Peak(g).r > 0.0
    ensures var n := Normalized(g);
            |n| == |g| && (forall i :: 0 <= i < |g| ==> |n[i]| == |g[i]|) &&
            (forall i, j :: 0 <= i < |g| && 0 <= j < |g[i]| ==> n[i][j].Num? && n[i][j].r <= 1.0) &&
            (forall i, j :: 0 <= i < |g| && 0 <= j < |g[i]| && g[i][j].r >= 0.0 ==> n[i][j].r >= 0.0) &&
            (exists i, j :: 0 <= i < |g| && 0 <= j < |g[i]| && n[i][j] == Num(1.0))
  {
    PeakBounds(g);
    var n: seq<seq<Float>> := Normalized(g);
    var p := Peak(g).r;
    forall i: int, j: int | 0 <= i < |g| && 0 <= j < |g[i]|
      ensures n[i][j].Num? && n[i][j].r <= 1.0
      ensures g[i][j].r >= 0.0 ==> n[i][j].r >= 0.0
    {
      NormalizedAt(g, i, j);
      DivideBelowOne(g[i][j].r, p);
    }
    var i, j :| 0 <= i < |g| && 0 <= j < |g[i]| && g[i][j] == Peak(g);
    NormalizedAt(g, i, j);
    DivideBelowOne(p, p);
  }

  lemma DivideBelowOne(v: real, p: real)
    requires p > 0.0 && v <= p
    ensures v / p <= 1.0
    ensures v >= 0.0 ==> v / p >= 0.0
    ensures v == p ==> v / p == 1.0
  {
    assert v / p * p == v;
  }

  /** With a zero peak, 0/0 makes every zero entry NaN and every negative
      one -Inf; an all-zero (or all non-negative, peak 0) grid becomes all
      NaN, so no candidate of that layer passes the threshold. */
  lemma NormalizedZeroPeak(g: seq<seq<Float>>)
    requires Finite(g) && Peak(g) == Num(0.0)
    ensures var n := Normalized(g);
            |n| == |g| && (forall i :: 0 <= i < |g| ==> |n[i]| == |g[i]|) &&
            (forall i, j :: 0 <= i < |g| && 0 <= j < |g[i]| ==>
               (g[i][j].r == 0.0 ==> n[i][j].NaN?) && (g[i][j].r < 0.0 ==> n[i][j].NegInf?))
    ensures (forall i, j :: 0 <= i < |g| && 0 <= j < |g[i]| ==> g[i][j].r >= 0.0) ==>
              forall i, j :: 0 <= i < |g| && 0 <= j < |g[i]| ==> Normalized(g)[i][j].NaN?
  {
    PeakBounds(g);
    var n := Normalized(g);
    forall i, j | 0 <= i < |g| && 0 <= j < |g[i]|
      ensures n[i][j] == Div(g[i][j], Num(0.0))
    {
      assert n[i] == DivRow(g[i], Peak(g));
    }
  }

  /** An infinite magnitude anywhere makes the peak +Inf, so every finite
      entry becomes 0. */
  lemma {:induction false} RowMaxKeepsPosInf(m: Float, row: seq<Float>)
    requires m.PosInf? || exists j :: 0 <= j < |row| && row[j].PosInf?
    ensures RowMax(m, row).PosInf?
    decreases |row|
  {
    if |row| > 0 && !row[|row| - 1].PosInf? {
      var init := row[..|row| - 1];
      if !m.PosInf? {
        var j :| 0 <= j < |row| && row[j].PosInf?;
        assert init[j] == row[j];
      }
      RowMaxKeepsPosInf(m, init);
    }
  }

  lemma {:induction false} GridMaxKeepsPosInf(m: Float, g: seq<seq<Float>>)
    requires m.PosInf? || exists i, j :: 0 <= i < |g| && 0 <= j < |g[i]| && g[i][j].PosInf?
    ensures GridMax(m, g).PosInf?
    decreases |g|
  {
    if |g| > 0 {
      var init: seq<seq<Float>>, last: seq<Float> := g[..|g| - 1], g[|g| - 1];
      if exists j :: 0 <= j < |last| && last[j].PosInf? {
        RowMaxKeepsPosInf(GridMax(m, init), last);
      } else {
        if !m.PosInf? {
          var i, j :| 0 <= i < |g| && 0 <= j < |g[i]| && g[i][j].PosInf?;
          assert i < |init|;
          assert init[i][j] == g[i][j];
        }
        GridMaxKeepsPosInf(m, init);
        RowMaxKeepsPosInf(GridMax(m, init), last);
      }
    }
  }

  lemma InfinitePeak(g: seq<seq<Float>>, i: int, j: int)
    requires 0 <= i < |g| && 0 <= j < |g[i]| && g[i][j].PosInf?
    ensures Peak(g).PosInf?
    ensures forall r, c :: 0 <= r < |g| && 0 <= c < |g[r]| && g[r][c].Num? ==> Normalized(g)[r][c] == Num(0.0)
  {
    GridMaxKeepsPosInf(Num(0.0), g);
    forall r, c | 0 <= r < |g| && 0 <= c < |g[r]| && g[r][c].Num?
      ensures Normalized(g)[r][c] == Num(0.0)
    {
      assert Normalized(g)[r] == DivRow(g[r], Peak(g));
    }
  }

  // createGradientSpec.

  /** One element of the gradSpec table; the zero value (nil slices) marks a
      slot the loops never fill. */
  datatype Slot = Slot(g: seq<seq<Float>>, theta: seq<seq<real>>)

  const Unfilled: Slot := Slot([], [])

  /** The float64 magnitudes as values of Float. */
  function Nums(g: seq<seq<real>>): (n: seq<seq<Float>>)
    ensures |n| == |g| && forall i :: 0 <= i < |g| ==> |n[i]| == |g[i]|
    ensures Finite(n)
  {
    seq(|g|, i requires 0 <= i < |g| => seq(|g[i]|, j requires 0 <= j < |g[i]| => Num(g[i][j])))
  }

  /** atan2 of two non-negative samples lies in [0, 90] degrees. */
  ghost predicate AngleInRange(angle: (int, int) -> real) {
    forall a, b :: 0 <= a < 256 && 0 <= b < 256 ==> 0.0 <= angle(a, b) <= 90.0
  }

  /** The slot createGradientSpec fills for DoG layer `layer`: the horizontal
      Sobel response passed as `vertical`, the vertical one as `horizontal`,
      their magnitudes normalised. The Failure branches are the panics; they
      cannot be taken for a well-formed layer and an angle in range. */
  function LayerSlot(layer: Gray, hypot: (int, int) -> real, angle: (int, int) -> real): Slot {
    match Convolution.Convolved(layer, Gradient.HorizontalKernel)
    case Failure(_) => Unfilled
    case Success(gX) =>
      match Convolution.Convolved(layer, Gradient.VerticalKernel)
      case Failure(_) => Unfilled
      case Success(gY) =>
        match Gradient.GradientSpec(gX, gY, hypot, angle)
        case Failure(_) => Unfilled
        case Success(f) => Slot(Normalized(Nums(f.g)), f.theta)
  }

  /** Row `row` of gradSpec: layers 1 .. scale - 3 filled, the rest zero. */
  function GradientRow(dog: seq<seq<Gray>>, row: int, scale: nat, hypot: (int, int) -> real, angle: (int, int) -> real)
    : seq<Slot>
    requires 0 <= row < |dog| && |dog[row]| >= scale - 2
  {
    seq(scale, c requires 0 <= c < scale => if 1 <= c < scale - 2 then LayerSlot(dog[row][c], hypot, angle) else Unfilled)
  }

  /** What createGradientSpec returns: octave rows of scale slots. */
  function GradientTable(dog: seq<seq<Gray>>, octave: nat, scale: nat, hypot: (int, int) -> real, angle: (int, int) -> real)
    : seq<seq<Slot>>
    requires octave <= |dog| && forall r :: 0 <= r < octave ==> |dog[r]| >= scale - 2
  {
    seq(octave, r requires 0 <= r < octave => GradientRow(dog, r, scale, hypot, angle))
  }

  /** The body of the layer loop: both Sobel responses, the gradient, and
      normalize on the slot. */
  method ComputeSlot(layer: Gray, hypot: (int, int) -> real, angle: (int, int) -> real) returns (slot: Slot)
    requires layer.Valid() && AngleInRange(angle)
    ensures slot == LayerSlot(layer, hypot, angle)
  {
    var rx := Gradient.HorizontalSobelGray(layer);
    var ry := Gradient.VerticalSobelGray(layer);
    var gX, gY := rx.value, ry.value;
    Gradient.GradientShape(gX, gY, hypot, angle);
    var field := Gradient.GradientAndOrientation(gX, gY, hypot, angle);
    var spec := new GradianSpec(Nums(field.value.g), field.value.theta);
    spec.Normalize();
    slot := Slot(spec.g, spec.theta);
  }

  /** The layer loop of createGradientSpec for one row of the table. */
  method FillGradientRow(dog: seq<seq<Gray>>, row: int, scale: nat, hypot: (int, int) -> real, angle: (int, int) -> real)
    returns (cells: seq<Slot>)
    requires 0 <= row < |dog| && |dog[row]| >= scale - 2 && AngleInRange(angle)
    requires forall c :: 0 <= c < |dog[row]| ==> dog[row][c].Valid()
    ensures cells == GradientRow(dog, row, scale, hypot, angle)
  {
    cells := seq(scale, _ => Unfilled);
    var col := 1;
    while col < scale - 2
      invariant 1 <= col && (col == 1 || col <= scale - 2) && |cells| == scale
      invariant forall c :: 0 <= c < scale ==>
                  cells[c] == if 1 <= c < col then LayerSlot(dog[row][c], hypot, angle) else Unfilled
    {
      var slot := ComputeSlot(dog[row][col], hypot, angle);
      cells := cells[col := slot];
      col := col + 1;
    }
  }

  /** createGradientSpec. */
  method CreateGradientSpec(octave: nat, scale: nat, dog: seq<seq<Gray>>, hypot: (int, int) -> real,
                            angle: (int, int) -> real) returns (gradSpec: seq<seq<Slot>>)
    requires octave <= |dog| && AngleInRange(angle)
    requires forall r :: 0 <= r < octave ==> |dog[r]| >= scale - 2
    requires forall r, c :: 0 <= r < octave && 0 <= c < |dog[r]| ==> dog[r][c].Valid()
    ensures gradSpec == GradientTable(dog, octave, scale, hypot, angle)
  {
    gradSpec := seq(octave, _ => seq(scale, _ => Unfilled));
    var row := 0;
    while row < octave
      invariant 0 <= row <= octave && |gradSpec| == octave
      invariant forall r :: 0 <= r < row ==> gradSpec[r] == GradientRow(dog, r, scale, hypot, angle)
    {
      var cells := FillGradientRow(dog, row, scale, hypot, angle);
      gradSpec := gradSpec[row := cells];
      row := row + 1;
    }
  }

  /** A filled slot holds w x h grids of the layer's bounds, and its
      directions are quantised. */
  lemma LayerSlotShape(layer: Gray, hypot: (int, int) -> real, angle: (int, int) -> real)
    requires layer.Valid() && AngleInRange(angle)
    ensures var s := LayerSlot(layer, hypot, angle);
            |s.g| == layer.w && (forall x :: 0 <= x < layer.w ==> |s.g[x]| == layer.h) &&
            IsRealGrid(s.theta, layer.w, layer.h) &&
            forall x, y :: 0 <= x < layer.w && 0 <= y < layer.h ==> s.theta[x][y] in {0.0, 45.0, 90.0, 135.0}
  {
    Convolution.ConvolvedShape(layer, Gradient.HorizontalKernel);
    Convolution.ConvolvedShape(layer, Gradient.VerticalKernel);
    var gX := Convolution.Convolved(layer, Gradient.HorizontalKernel).value;
    var gY := Convolution.Convolved(layer, Gradient.VerticalKernel).value;
    Gradient.GradientShape(gX, gY, hypot, angle);
  }

  // filterKeyPoints.

  /** The slot, row and column filterKeyPoints reads for kp all exist. */
  predicate Indexes(table: seq<seq<Slot>>, kp: Sift.KeyPoint) {
    0 <= kp.octave < |table| && 0 <= kp.scale < |table[kp.octave]| &&
    0 <= kp.x < |table[kp.octave][kp.scale].g| && 0 <= kp.y < |table[kp.octave][kp.scale].g[kp.x]|
  }

  /** gradSpec[octave][scale].g[x][y]. */
  function Magnitude(table: seq<seq<Slot>>, kp: Sift.KeyPoint): Float
    requires Indexes(table, kp)
  {
    table[kp.octave][kp.scale].g[kp.x][kp.y]
  }

  /** The float64 comparison `v > tresh`: false for NaN. */
  predicate Exceeds(v: Float, tresh: real) {
    match v
    case Num(r) => r > tresh
    case PosInf => true
    case _ => false
  }

  predicate AllIndexed(table: seq<seq<Slot>>, cands: seq<Sift.KeyPoint>) {
    forall i :: 0 <= i < |cands| ==> Indexes(table, cands[i])
  }

  /** What filterKeyPoints returns for the candidates of `cands`, in order. */
  function Kept(cands: seq<Sift.KeyPoint>, table: seq<seq<Slot>>, tresh: real): seq<Sift.KeyPoint>
    requires AllIndexed(table, cands)
    decreases |cands|
  {
    if |cands| == 0 then []
    else
      var last := cands[|cands| - 1];
      Kept(cands[..|cands| - 1], table, tresh) + (if Exceeds(Magnitude(table, last), tresh) then [last] else [])
  }

  method FilterKeyPoints(candidate: seq<Sift.KeyPoint>, gradSpec: seq<seq<Slot>>, tresh: real)
    returns (result: seq<Sift.KeyPoint>)
    requires AllIndexed(gradSpec, candidate)
    ensures result == Kept(candidate, gradSpec, tresh)
  {
    result := [];
    var i := 0;
    while i < |candidate|
      invariant 0 <= i <= |candidate| && result == Kept(candidate[..i], gradSpec, tresh)
    {
      var can := candidate[i];
      assert candidate[..i + 1][..i] == candidate[..i];
      if Exceeds(gradSpec[can.octave][can.scale].g[can.x][can.y], tresh) {
        result := result + [can];
      }
      i := i + 1;
    }
    assert candidate[..i] == candidate;
  }

  // Properties of the filter.

  /** A key point is kept exactly when it is a candidate whose magnitude
      exceeds the threshold. */
  lemma {:induction false} KeptMembers(cands: seq<Sift.KeyPoint>, table: seq<seq<Slot>>, tresh: real, kp: Sift.KeyPoint)
    requires AllIndexed(table, cands)
    ensures kp in Kept(cands, table, tresh) <==> kp in cands && Indexes(table, kp) && Exceeds(Magnitude(table, kp), tresh)
    decreases |cands|
  {
    if |cands| > 0 {
      var init := cands[..|cands| - 1];
      KeptMembers(init, table, tresh, kp);
      assert cands == init + [cands[|cands| - 1]];
    }
  }

  /** The filter distributes over concatenation, so it keeps the relative
      order of the candidates it keeps. */
  lemma {:induction false} KeptConcat(s: seq<Sift.KeyPoint>, t: seq<Sift.KeyPoint>, table: seq<seq<Slot>>, tresh: real)
    requires AllIndexed(table, s) && AllIndexed(table, t)
    ensures AllIndexed(table, s + t)
    ensures Kept(s + t, table, tresh) == Kept(s, table, tresh) + Kept(t, table, tresh)
    decreases |t|
  {
    assert AllIndexed(table, s + t) by {
      forall i | 0 <= i < |s + t|
        ensures Indexes(table, (s + t)[i])
      {
        if i >= |s| {
          assert (s + t)[i] == t[i - |s|];
        }
      }
    }
    if |t| == 0 {
      assert s + t == s;
    } else {
      var init, last := t[..|t| - 1], t[|t| - 1];
      assert AllIndexed(table, init) by {
        forall i | 0 <= i < |init|
          ensures Indexes(table, init[i])
        {
          assert init[i] == t[i];
        }
      }
      KeptConcat(s, init, table, tresh);
      assert (s + t)[..|s + t| - 1] == s + init;
      assert (s + t)[|s + t| - 1] == last;
    }
  }

  /** Candidates listed in ascending order stay in ascending order. */
  lemma {:induction false} KeptAscending(cands: seq<Sift.KeyPoint>, table: seq<seq<Slot>>, tresh: real)
    requires AllIndexed(table, cands) && Sift.Ascending(cands)
    ensures Sift.Ascending(Kept(cands, table, tresh))
    decreases |cands|
  {
    if |cands| > 0 {
      var init, last := cands[..|cands| - 1], cands[|cands| - 1];
      assert Sift.Ascending(init) by {
        forall i, j | 0 <= i < j < |init|
          ensures Sift.Before(init[i], init[j])
        {
          assert init[i] == cands[i] && init[j] == cands[j];
        }
      }
      assert AllIndexed(table, init) by {
        forall i | 0 <= i < |init|
          ensures Indexes(table, init[i])
        {
          assert init[i] == cands[i];
        }
      }
      KeptAscending(init, table, tresh);
      var kept := Kept(init, table, tresh);
      var tail := if Exceeds(Magnitude(table, last), tresh) then [last] else [];
      forall i, j | 0 <= i < |kept| && 0 <= j < |tail|
        ensures Sift.Before(kept[i], tail[j])
      {
        KeptMembers(init, table, tresh, kept[i]);
        var k :| 0 <= k < |init| && init[k] == kept[i];
        assert cands[k] == init[k];
      }
      Sift.AscendingConcat(kept, tail);
    }
  }

  /** Every candidate of the DoG of a well-formed table indexes a filled
      slot of createGradientSpec's table: the slot of its own layer, whose
      grids have that layer's bounds, so filterKeyPoints never reads past a
      slice. */
  lemma CandidatesIndexSlots(dog: seq<seq<Gray>>, octave: nat, scale: int, hypot: (int, int) -> real,
                             angle: (int, int) -> real)
    requires octave <= |dog| && scale >= 1 && AngleInRange(angle)
    requires forall r :: 0 <= r < octave ==> |dog[r]| == scale - 1
    requires forall r, c :: 0 <= r < octave && 0 <= c < |dog[r]| ==> dog[r][c].Valid()
    ensures var table := GradientTable(dog, octave, scale, hypot, angle);
            var cands := Sift.Candidates(dog, octave, scale);
            AllIndexed(table, cands) &&
            forall i :: 0 <= i < |cands| ==>
              table[cands[i].octave][cands[i].scale] == LayerSlot(dog[cands[i].octave][cands[i].scale], hypot, angle)
  {
    var table := GradientTable(dog, octave, scale, hypot, angle);
    var cands := Sift.Candidates(dog, octave, scale);
    forall i | 0 <= i < |cands|
      ensures Indexes(table, cands[i])
      ensures table[cands[i].octave][cands[i].scale] == LayerSlot(dog[cands[i].octave][cands[i].scale], hypot, angle)
    {
      Sift.CandidatesInterior(dog, octave, scale, cands[i]);
      InteriorIndexesSlot(dog, octave, scale, hypot, angle, table, cands[i]);
    }
  }

  /** A key point inside an inner layer of the DoG indexes the table, at
      that layer's slot. */
  lemma InteriorIndexesSlot(dog: seq<seq<Gray>>, octave: nat, scale: int, hypot: (int, int) -> real,
                            angle: (int, int) -> real, table: seq<seq<Slot>>, kp: Sift.KeyPoint)
    requires octave <= |dog| && scale >= 1 && AngleInRange(angle)
    requires forall r :: 0 <= r < octave ==> |dog[r]| == scale - 1
    requires forall r, c :: 0 <= r < octave && 0 <= c < |dog[r]| ==> dog[r][c].Valid()
    requires table == GradientTable(dog, octave, scale, hypot, angle)
    requires 0 <= kp.octave < octave && 1 <= kp.scale && kp.scale + 1 < |dog[kp.octave]|
    requires 1 <= kp.x < dog[kp.octave][kp.scale].w - 1 && 1 <= kp.y < dog[kp.octave][kp.scale].h - 1
    ensures Indexes(table, kp)
    ensures table[kp.octave][kp.scale] == LayerSlot(dog[kp.octave][kp.scale], hypot, angle)
  {
    TableSlot(dog, octave, scale, hypot, angle, table, kp.octave, kp.scale);
    SlotCovers(dog[kp.octave][kp.scale], hypot, angle, table[kp.octave][kp.scale], kp.x, kp.y);
  }

  /** Cell (o, s) of an inner layer of createGradientSpec's table is that
      layer's slot. */
  lemma TableSlot(dog: seq<seq<Gray>>, octave: nat, scale: int, hypot: (int, int) -> real,
                  angle: (int, int) -> real, table: seq<seq<Slot>>, o: int, s: int)
    requires octave <= |dog| && scale >= 1
    requires forall r :: 0 <= r < octave ==> |dog[r]| == scale - 1
    requires table == GradientTable(dog, octave, scale, hypot, angle)
    requires 0 <= o < octave && 1 <= s && s + 1 < |dog[o]|
    ensures o < |table| && s < |table[o]| && table[o][s] == LayerSlot(dog[o][s], hypot, angle)
  {
  }

  /** The slot of a layer covers every pixel of the layer. */
  lemma SlotCovers(layer: Gray, hypot: (int, int) -> real, angle: (int, int) -> real, slot: Slot, x: int, y: int)
    requires layer.Valid() && AngleInRange(angle) && slot == LayerSlot(layer, hypot, angle)
    requires 0 <= x < layer.w && 0 <= y < layer.h
    ensures x < |slot.g| && y < |slot.g[x]|
  {
    LayerSlotShape(layer, hypot, angle);
  }

  // SiftFeatures.

  /** What SiftFeatures returns: the candidates of the DoG of the scale
      space, filtered by the magnitudes of createGradientSpec's table. */
  function SiftSpec(img: Gray, oct: nat, scale: int, tresh: real, k: real, halve: Gray -> Gray,
                    blur: (Gray, real) -> Gray, hypot: (int, int) -> real, angle: (int, int) -> real)
    : seq<Sift.KeyPoint>
    requires img.Valid() && Sift.HalvesValid(halve) && Sift.BlurKeepsShape(blur) && scale >= 1 && AngleInRange(angle)
  {
    var ss := Sift.ScaleSpace(img, halve, blur, k, oct, scale);
    assert |ss| == oct && forall r :: 0 <= r < oct ==> |ss[r]| == scale by {
      Sift.ScaleSpaceShape(img, halve, blur, k, oct, scale);
    }
    var dog := Sift.DoG(ss, oct, scale);
    assert AllIndexed(GradientTable(dog, oct, scale, hypot, angle), Sift.Candidates(dog, oct, scale)) by {
      Sift.DoGCellsValid(ss, oct, scale);
      CandidatesIndexSlots(dog, oct, scale, hypot, angle);
    }
    Kept(Sift.Candidates(dog, oct, scale), GradientTable(dog, oct, scale, hypot, angle), tresh)
  }

  /** SiftFeatures: scale space, DoG, candidates, gradient table, filter. */
  method SiftFeatures(img: Gray, oct: nat, scale: int, tresh: real, k: real, halve: Gray -> Gray,
                      gaussian: (real, real, int, int) -> real, hypot: (int, int) -> real, angle: (int, int) -> real)
    returns (result: seq<Sift.KeyPoint>)
    requires img.Valid() && Sift.HalvesValid(halve) && scale >= 1 && AngleInRange(angle)
    ensures Sift.BlurKeepsShape(Sift.Blur(gaussian))
    ensures result == SiftSpec(img, oct, scale, tresh, k, halve, Sift.Blur(gaussian), hypot, angle)
  {
    ghost var blur := Sift.Blur(gaussian);
    Sift.BlurShape(gaussian);
    var scaleSpace := Sift.CreateScaleSpace(img, oct, scale, k, halve, gaussian, blur);
    Sift.ScaleSpaceShape(img, halve, blur, k, oct, scale);
    var dog := Sift.CreateDoG(oct, scale, scaleSpace);
    var candidate := Sift.ExtractKeyPoints(oct, scale, dog);
    Sift.DoGCellsValid(scaleSpace, oct, scale);
    var gradSpec := CreateGradientSpec(oct, scale, dog, hypot, angle);
    CandidatesIndexSlots(dog, oct, scale, hypot, angle);
    result := FilterKeyPoints(candidate, gradSpec, tresh);
  }

  /** Pixel (x, y) of a slot's magnitude grid exists and exceeds tresh. */
  predicate Passes(slot: Slot, x: int, y: int, tresh: real) {
    0 <= x < |slot.g| && 0 <= y < |slot.g[x]| && Exceeds(slot.g[x][y], tresh)
  }

  /** SiftFeatures returns exactly the extremum candidates of DoG layers
      1 .. scale - 3 whose normalised magnitude, in the slot of their own
      layer, exceeds tresh, strictly ascending by octave, layer, x and y. */
  lemma SiftFeaturesResult(img: Gray, oct: nat, scale: int, tresh: real, k: real, halve: Gray -> Gray,
                           blur: (Gray, real) -> Gray, hypot: (int, int) -> real, angle: (int, int) -> real,
                           kp: Sift.KeyPoint)
    requires img.Valid() && Sift.HalvesValid(halve) && Sift.BlurKeepsShape(blur) && scale >= 1 && AngleInRange(angle)
    ensures var ss := Sift.ScaleSpace(img, halve, blur, k, oct, scale);
            |ss| == oct && (forall r :: 0 <= r < oct ==> |ss[r]| == scale) &&
            var dog := Sift.DoG(ss, oct, scale);
            (kp in SiftSpec(img, oct, scale, tresh, k, halve, blur, hypot, angle) <==>
               0 <= kp.octave < oct && 1 <= kp.scale < scale - 2 &&
               dog[kp.octave][kp.scale].InBounds(kp.x, kp.y) &&
               Sift.IsCandidate(dog, kp.octave, kp.scale, kp.x, kp.y) &&
               Passes(LayerSlot(dog[kp.octave][kp.scale], hypot, angle), kp.x, kp.y, tresh))
    ensures Sift.Ascending(SiftSpec(img, oct, scale, tresh, k, halve, blur, hypot, angle))
  {
    var ss := Sift.ScaleSpace(img, halve, blur, k, oct, scale);
    Sift.ScaleSpaceShape(img, halve, blur, k, oct, scale);
    var dog := Sift.DoG(ss, oct, scale);
    Sift.DoGCellsValid(ss, oct, scale);
    CandidatesIndexSlots(dog, oct, scale, hypot, angle);
    var table := GradientTable(dog, oct, scale, hypot, angle);
    var cands := Sift.Candidates(dog, oct, scale);
    KeptMembers(cands, table, tresh, kp);
    Sift.CandidatesMembers(dog, oct, scale, kp);
    if kp in cands {
      var i :| 0 <= i < |cands| && cands[i] == kp;
    }
    Sift.CandidatesAscending(dog, oct, scale);
    KeptAscending(cands, table, tresh);
  }
}
