/** Colour unmixing: the per-block crosstalk matrix measured from red,
    green, blue and white calibration images, its inverse, the optional
    re-projection onto the colour response at the centre of the sensor,
    and the application of the resulting matrix field to an image. */
module Unmixing {
  import opened Results
  import opened Grids
  import opened Matrix3
  import opened Binning

  /** One 3 x 3 matrix per block of the binned image. */
  type Field = seq<seq<Mat3>>

  datatype UnmixError =
    | ShapeMismatch  // arrays that numpy cannot stack or multiply together
    | ZeroWhite      // a white-image component of zero: the ratio has no value
    | Singular       // `np.linalg.inv` raises LinAlgError
    | EmptyCentre    // the central window selects no pixel

  /** A calibration run: one image per illumination, red, green, blue and white. */
  datatype Calibration = Calibration(red: Image, green: Image, blue: Image, white: Image) {
    /** The image taken under primary `k` (0 red, 1 green, 2 blue). */
    function Run(k: nat): Image
      requires k < 3
    {
      if k == 0 then red else if k == 1 then green else blue
    }
  }

  predicate Shaped(cal: Calibration, rows: nat, cols: nat) {
    IsGrid(cal.red, rows, cols) && IsGrid(cal.green, rows, cols) &&
    IsGrid(cal.blue, rows, cols) && IsGrid(cal.white, rows, cols)
  }

  predicate NonZero(v: Vec3) {
    v.v0 != 0.0 && v.v1 != 0.0 && v.v2 != 0.0
  }

  predicate WhiteNonZero(cal: Calibration, rows: nat, cols: nat)
    requires Shaped(cal, rows, cols)
  {
    forall i, j :: 0 <= i < rows && 0 <= j < cols ==> NonZero(cal.white[i][j])
  }

  /** Component-wise quotient. */
  function Ratio(a: Vec3, w: Vec3): (r: Vec3)
    requires NonZero(w)
    ensures r.v0 * w.v0 == a.v0 && r.v1 * w.v1 == a.v1 && r.v2 * w.v2 == a.v2
  {
    Vec3(a.v0 / w.v0, a.v1 / w.v1, a.v2 / w.v2)
  }

  // ---- crosstalk_matrices ----

  /** The crosstalk matrix of block `(i, j)`: column `k` is the response to
      primary `k` relative to the response to white. */
  function CrosstalkAt(cal: Calibration, rows: nat, cols: nat, i: nat, j: nat): Mat3
    requires Shaped(cal, rows, cols) && i < rows && j < cols && NonZero(cal.white[i][j])
  {
    var w := cal.white[i][j];
    Transpose(Mat3(Ratio(cal.red[i][j], w), Ratio(cal.green[i][j], w), Ratio(cal.blue[i][j], w)))
  }

  /** Entry `(c, k)` of the crosstalk matrix times the white response in
      channel `c` is the response in channel `c` to primary `k`. */
  lemma CrosstalkEntry(cal: Calibration, rows: nat, cols: nat, i: nat, j: nat, c: nat, k: nat)
    requires Shaped(cal, rows, cols) && i < rows && j < cols && NonZero(cal.white[i][j])
    requires c < 3 && k < 3
    ensures CrosstalkAt(cal, rows, cols, i, j).At(c, k) * cal.white[i][j].At(c) == cal.Run(k)[i][j].At(c)
  {
    var w := cal.white[i][j];
    var rows3 := Mat3(Ratio(cal.red[i][j], w), Ratio(cal.green[i][j], w), Ratio(cal.blue[i][j], w));
    TransposeAt(rows3, c, k);
    assert rows3.At(k, c) == Ratio(cal.Run(k)[i][j], w).At(c);
    RatioAt(cal.Run(k)[i][j], w, c);
  }

  lemma RatioAt(a: Vec3, w: Vec3, c: nat)
    requires NonZero(w) && c < 3
    ensures Ratio(a, w).At(c) * w.At(c) == a.At(c)
  {
  }

  /** `crosstalk_matrices`: the stacked primaries divided by white. */
  function Crosstalk(cal: Calibration, rows: nat, cols: nat): (r: Result<Field, UnmixError>)
    ensures r.Ok? <==> Shaped(cal, rows, cols) && WhiteNonZero(cal, rows, cols)
    ensures r.Err? ==> r.error == (if Shaped(cal, rows, cols) then ZeroWhite else ShapeMismatch)
    ensures r.Ok? ==> IsGrid(r.value, rows, cols)
    ensures r.Ok? ==> forall i, j :: 0 <= i < rows && 0 <= j < cols ==>
      r.value[i][j] == CrosstalkAt(cal, rows, cols, i, j)
  {
    if !Shaped(cal, rows, cols) then Err(ShapeMismatch)
    else if !WhiteNonZero(cal, rows, cols) then Err(ZeroWhite)
    else Ok(seq(rows, i requires 0 <= i < rows =>
              seq(cols, j requires 0 <= j < cols => CrosstalkAt(cal, rows, cols, i, j))))
  }

  // ---- the per-block inverse ----

  predicate AllInvertible(m: Field, rows: nat, cols: nat)
    requires IsGrid(m, rows, cols)
  {
    forall i, j :: 0 <= i < rows && 0 <= j < cols ==> Det(m[i][j]) != 0.0
  }

  /** `np.linalg.inv` of every block's matrix; a singular one raises. */
  function InvertField(m: Field, rows: nat, cols: nat): (r: Result<Field, UnmixError>)
    requires IsGrid(m, rows, cols)
    ensures r.Ok? <==> AllInvertible(m, rows, cols)
    ensures r.Err? ==> r.error == Singular
    ensures r.Ok? ==> IsGrid(r.value, rows, cols)
    ensures r.Ok? ==> forall i, j :: 0 <= i < rows && 0 <= j < cols ==> IsInverse(m[i][j], r.value[i][j])
  {
    if !AllInvertible(m, rows, cols) then Err(Singular)
    else Ok(seq(rows, i requires 0 <= i < rows =>
              seq(cols, j requires 0 <= j < cols => Inverse(m[i][j]).value)))
  }

  // ---- central_colour ----

  function Min(a: nat, b: nat): nat {
    if a <= b then a else b
  }

  /** First row of the central window: `w * 4 // 9`. */
  function RowStart(w: nat): nat {
    w * 4 / 9
  }

  /** End of the central row slice, `w // 2 + w * 5 // 9`, clamped to the
      image as slicing does. */
  function RowStop(w: nat): nat {
    Min(w, w / 2 + w * 5 / 9)
  }

  function ColStart(h: nat): nat {
    h * 4 / 9
  }

  function ColStop(h: nat): nat {
    h * 5 / 9
  }

  /** The window lies inside the image and neither bound runs backwards. */
  lemma WindowInside(w: nat, h: nat)
    ensures RowStart(w) <= RowStop(w) <= w
    ensures ColStart(h) <= ColStop(h) <= h
  {
  }

  /** The central rows are never empty unless the image has fewer than two rows. */
  lemma RowWindowNonEmpty(w: nat)
    ensures RowStart(w) < RowStop(w) <==> w >= 2
  {
  }

  /** The central columns are empty exactly for widths 0, 1, 3, 5 and 7. */
  lemma ColWindowNonEmpty(h: nat)
    ensures ColStart(h) < ColStop(h) <==> h != 0 && h != 1 && h != 3 && h != 5 && h != 7
  {
    if h >= 9 {
      assert ColStop(h) >= ColStart(h) + 1;
    }
  }

  /** The row bound `w // 2 + w * 5 // 9` reaches past the last row except
      for heights 1, 3, 5 and 7: the central rows run to the bottom edge. */
  lemma RowWindowReachesEdge(w: nat)
    ensures RowStop(w) == w <==> w != 1 && w != 3 && w != 5 && w != 7
  {
    if w >= 9 {
      assert w / 2 + w * 5 / 9 >= w;
    }
  }

  predicate CentreNonEmpty(rows: nat, cols: nat) {
    RowStart(rows) < RowStop(rows) && ColStart(cols) < ColStop(cols)
  }

  /** The weight of one pixel in a mean over `n` x `m` pixels. */
  function MeanWeight(n: nat, m: nat): (w: real)
    requires n > 0 && m > 0
    ensures w * (n as real * m as real) == 1.0
  {
    1.0 / (n as real * m as real)
  }

  /** `central_colour`: the mean colour of the central window; numpy's
      mean of an empty slice has no value. */
  function CentralColour(img: Image, rows: nat, cols: nat): (r: Result<Vec3, UnmixError>)
    requires IsGrid(img, rows, cols)
    ensures r.Ok? <==> CentreNonEmpty(rows, cols)
    ensures r.Err? ==> r.error == EmptyCentre
    ensures r.Ok? ==>
      var r0, c0 := RowStart(rows), ColStart(cols);
      var n, m := RowStop(rows) - r0, ColStop(cols) - c0;
      Spans(img, r0, c0, n, m) && ScaleVec((n * m) as real, r.value) == BlockSum(img, r0, c0, n, m)
  {
    WindowInside(rows, cols);
    var r0, c0 := RowStart(rows), ColStart(cols);
    var n, m := RowStop(rows) - r0, ColStop(cols) - c0;
    if n == 0 || m == 0 then Err(EmptyCentre)
    else
      var mean := ScaleVec(MeanWeight(n, m), BlockSum(img, r0, c0, n, m));
      Reweight(n, m, BlockSum(img, r0, c0, n, m));
      Ok(mean)
  }

  /** Scaling the mean back by the pixel count gives the sum. */
  lemma Reweight(n: nat, m: nat, s: Vec3)
    requires n > 0 && m > 0
    ensures ScaleVec((n * m) as real, ScaleVec(MeanWeight(n, m), s)) == s
  {
    var k, w := (n * m) as real, MeanWeight(n, m);
    assert k * w == 1.0;
    assert k * (w * s.v0) == (k * w) * s.v0;
    assert k * (w * s.v1) == (k * w) * s.v1;
    assert k * (w * s.v2) == (k * w) * s.v2;
  }

  lemma Unweight(n: real, m: real, w: real, s: Vec3, v: Vec3)
    requires w * (n * m) == 1.0 && s == ScaleVec(n, ScaleVec(m, v))
    ensures ScaleVec(w, s) == v
  {
    assert w * (n * (m * v.v0)) == v.v0 by {
      assert n * (m * v.v0) == (n * m) * v.v0;
    }
    assert w * (n * (m * v.v1)) == v.v1 by {
      assert n * (m * v.v1) == (n * m) * v.v1;
    }
    assert w * (n * (m * v.v2)) == v.v2 by {
      assert n * (m * v.v2) == (n * m) * v.v2;
    }
  }

  lemma MeanOfConstant(img: Image, r0: nat, c0: nat, n: nat, m: nat, v: Vec3)
    requires Spans(img, r0, c0, n, m) && n > 0 && m > 0
    requires forall y, x :: r0 <= y < r0 + n && c0 <= x < c0 + m ==> img[y][x] == v
    ensures ScaleVec(MeanWeight(n, m), BlockSum(img, r0, c0, n, m)) == v
  {
    var w := MeanWeight(n, m);
    assert w * (n as real * m as real) == 1.0;
    BlockSumConstant(img, r0, c0, n, m, v);
    Unweight(n as real, m as real, w, BlockSum(img, r0, c0, n, m), v);
  }

  predicate InCentre(rows: nat, cols: nat, y: nat, x: nat) {
    RowStart(rows) <= y < RowStop(rows) && ColStart(cols) <= x < ColStop(cols)
  }

  /** An image whose central window is uniform has that colour as its centre colour. */
  lemma CentralColourConstant(img: Image, rows: nat, cols: nat, v: Vec3)
    requires IsGrid(img, rows, cols) && CentreNonEmpty(rows, cols)
    requires forall y, x :: 0 <= y < rows && 0 <= x < cols && InCentre(rows, cols, y, x) ==> img[y][x] == v
    ensures CentralColour(img, rows, cols) == Ok(v)
  {
    WindowInside(rows, cols);
    var r0, c0 := RowStart(rows), ColStart(cols);
    var n, m := RowStop(rows) - r0, ColStop(cols) - c0;
    MeanOfConstant(img, r0, c0, n, m, v);
  }

  /** Only the central window matters: images that agree there have the same centre colour. */
  lemma CentralColourWindowOnly(img: Image, other: Image, rows: nat, cols: nat)
    requires IsGrid(img, rows, cols) && IsGrid(other, rows, cols)
    requires forall y, x :: 0 <= y < rows && 0 <= x < cols && InCentre(rows, cols, y, x) ==> img[y][x] == other[y][x]
    ensures CentralColour(img, rows, cols) == CentralColour(other, rows, cols)
  {
    WindowInside(rows, cols);
    var r0, c0 := RowStart(rows), ColStart(cols);
    var n, m := RowStop(rows) - r0, ColStop(cols) - c0;
    BlockSumAgree(img, other, r0, c0, n, m);
  }

  // ---- the centre-referenced target ----

  /** `cal[k] / cal['W']`, pixel by pixel. */
  function RatioImage(img: Image, white: Image, rows: nat, cols: nat): (r: Image)
    requires IsGrid(img, rows, cols) && IsGrid(white, rows, cols)
    requires forall i, j :: 0 <= i < rows && 0 <= j < cols ==> NonZero(white[i][j])
    ensures IsGrid(r, rows, cols)
    ensures forall i, j :: 0 <= i < rows && 0 <= j < cols ==> r[i][j] == Ratio(img[i][j], white[i][j])
  {
    seq(rows, i requires 0 <= i < rows => seq(cols, j requires 0 <= j < cols => Ratio(img[i][j], white[i][j])))
  }

  /** The centre colour of primary `k` relative to white. */
  function CentreOf(cal: Calibration, rows: nat, cols: nat, k: nat): Result<Vec3, UnmixError>
    requires Shaped(cal, rows, cols) && WhiteNonZero(cal, rows, cols) && k < 3
  {
    CentralColour(RatioImage(cal.Run(k), cal.white, rows, cols), rows, cols)
  }

  /** `central_response`: row `k` is the centre colour of primary `k`
      relative to white, so its transpose is the crosstalk matrix at the
      centre of the sensor. */
  function CentreResponse(cal: Calibration, rows: nat, cols: nat): (r: Result<Mat3, UnmixError>)
    requires Shaped(cal, rows, cols) && WhiteNonZero(cal, rows, cols)
    ensures r.Ok? <==> CentreNonEmpty(rows, cols)
    ensures r.Ok? ==> forall k :: 0 <= k < 3 ==> r.value.Row(k) == CentreOf(cal, rows, cols, k).value
  {
    if !CentreNonEmpty(rows, cols) then Err(EmptyCentre)
    else Ok(Mat3(CentreOf(cal, rows, cols, 0).value, CentreOf(cal, rows, cols, 1).value, CentreOf(cal, rows, cols, 2).value))
  }

  /** Every block's inverse re-projected through the centre response:
      entry `(c, b)` is the sum over `a` of `central[a][c] * inv[a][b]`. */
  function Project(central: Mat3, inv: Field, rows: nat, cols: nat): (r: Field)
    requires IsGrid(inv, rows, cols)
    ensures IsGrid(r, rows, cols)
    ensures forall i, j :: 0 <= i < rows && 0 <= j < cols ==> r[i][j] == Mul(Transpose(central), inv[i][j])
  {
    seq(rows, i requires 0 <= i < rows => seq(cols, j requires 0 <= j < cols => Mul(Transpose(central), inv[i][j])))
  }

  /** The projected entry is the sum over the illumination axis written in
      the source: `sum_a central[a][c] * inv[a][b]`. */
  lemma ProjectEntry(central: Mat3, inv: Mat3, c: nat, b: nat)
    requires c < 3 && b < 3
    ensures Mul(Transpose(central), inv).At(c, b)
      == central.At(0, c) * inv.At(0, b) + central.At(1, c) * inv.At(1, b) + central.At(2, c) * inv.At(2, b)
  {
    MulAt(Transpose(central), inv, c, b);
    TransposeAt(central, c, 0);
    TransposeAt(central, c, 1);
    TransposeAt(central, c, 2);
  }

  /** Only these two spellings select the centre-referenced target; any
      other string leaves the inverses as they are. */
  predicate IsCentreTarget(target: string) {
    target == "centre" || target == "center"
  }

  // ---- colour_unmixing_matrices ----

  predicate Invertible(cal: Calibration, rows: nat, cols: nat)
    requires Shaped(cal, rows, cols) && WhiteNonZero(cal, rows, cols)
  {
    forall i, j :: 0 <= i < rows && 0 <= j < cols ==> Det(CrosstalkAt(cal, rows, cols, i, j)) != 0.0
  }

  /** The field before smoothing: the inverses, re-projected for the centre target. */
  function Compensation(cal: Calibration, rows: nat, cols: nat, target: string): (r: Result<Field, UnmixError>)
    ensures r.Ok? <==> (Shaped(cal, rows, cols) && WhiteNonZero(cal, rows, cols) && Invertible(cal, rows, cols)
                        && (IsCentreTarget(target) ==> CentreNonEmpty(rows, cols)))
    ensures r.Ok? ==> IsGrid(r.value, rows, cols)
  {
    var m :- Crosstalk(cal, rows, cols);
    var inv :- InvertField(m, rows, cols);
    if IsCentreTarget(target) then
      var central :- CentreResponse(cal, rows, cols);
      Ok(Project(central, inv, rows, cols))
    else
      Ok(inv)
  }

  /** `colour_unmixing_matrices`. The Gaussian filter is a parameter: any
      map of fields, applied last to the whole field when present. */
  function UnmixingMatrices(cal: Calibration, rows: nat, cols: nat, target: string, smoothing: Option<Field -> Field>)
    : (r: Result<Field, UnmixError>)
    ensures r.Ok? <==> Compensation(cal, rows, cols, target).Ok?
    ensures r.Err? ==> r.error == Compensation(cal, rows, cols, target).error
    ensures r.Ok? && smoothing.Some? ==> r.value == smoothing.value(Compensation(cal, rows, cols, target).value)
    ensures r.Ok? && smoothing.None? ==> r.value == Compensation(cal, rows, cols, target).value
  {
    var comp :- Compensation(cal, rows, cols, target);
    match smoothing
    case None => Ok(comp)
    case Some(smooth) => Ok(smooth(comp))
  }

  // ---- colour_unmix_image ----

  /** Each pixel multiplied by its block's matrix; a field of another shape
      does not broadcast against the image. */
  function UnmixImage(comp: Field, img: Image, rows: nat, cols: nat): (r: Result<Image, UnmixError>)
    requires IsGrid(img, rows, cols)
    ensures r.Ok? <==> IsGrid(comp, rows, cols)
    ensures r.Err? ==> r.error == ShapeMismatch
    ensures r.Ok? ==> IsGrid(r.value, rows, cols)
    ensures r.Ok? ==> forall i, j :: 0 <= i < rows && 0 <= j < cols ==> r.value[i][j] == MulVec(comp[i][j], img[i][j])
  {
    if !IsGrid(comp, rows, cols) then Err(ShapeMismatch)
    else Ok(seq(rows, i requires 0 <= i < rows =>
              seq(cols, j requires 0 <= j < cols => MulVec(comp[i][j], img[i][j]))))
  }

  /** `colour_unmix_image`: the matrices of a calibration run applied to an image. */
  function ColourUnmixImage(img: Image, cal: Calibration, rows: nat, cols: nat, target: string,
                            smoothing: Option<Field -> Field>): (r: Result<Image, UnmixError>)
    requires IsGrid(img, rows, cols)
    ensures r.Ok? <==> UnmixingMatrices(cal, rows, cols, target, smoothing).Ok?
                       && IsGrid(UnmixingMatrices(cal, rows, cols, target, smoothing).value, rows, cols)
    ensures UnmixingMatrices(cal, rows, cols, target, smoothing).Err? ==>
      r == Err(UnmixingMatrices(cal, rows, cols, target, smoothing).error)
    ensures r.Ok? ==> IsGrid(r.value, rows, cols)
  {
    var comp :- UnmixingMatrices(cal, rows, cols, target, smoothing);
    UnmixImage(comp, img, rows, cols)
  }

  // ---- what the matrices do ----

  /** With the plain target every block's matrix inverts that block's crosstalk. */
  lemma RgbTargetInverts(cal: Calibration, rows: nat, cols: nat, target: string, i: nat, j: nat)
    requires !IsCentreTarget(target) && Compensation(cal, rows, cols, target).Ok?
    requires i < rows && j < cols
    ensures IsInverse(CrosstalkAt(cal, rows, cols, i, j), Compensation(cal, rows, cols, target).value[i][j])
  {
  }

  /** With the centre target, every block's matrix takes that block's
      crosstalk to the crosstalk measured at the centre. */
  lemma CentreTargetRecentres(cal: Calibration, rows: nat, cols: nat, target: string, i: nat, j: nat)
    requires IsCentreTarget(target) && Compensation(cal, rows, cols, target).Ok?
    requires i < rows && j < cols
    ensures Mul(Compensation(cal, rows, cols, target).value[i][j], CrosstalkAt(cal, rows, cols, i, j))
      == Transpose(CentreResponse(cal, rows, cols).value)
  {
    var m := CrosstalkAt(cal, rows, cols, i, j);
    var inv := InvertField(Crosstalk(cal, rows, cols).value, rows, cols).value[i][j];
    var ct := Transpose(CentreResponse(cal, rows, cols).value);
    assert IsInverse(m, inv);
    assert Compensation(cal, rows, cols, target).value[i][j] == Mul(ct, inv);
    MulAssoc(ct, inv, m);
    MulIdentity(ct);
  }

  predicate Uniform(img: Image, rows: nat, cols: nat, v: Vec3) {
    IsGrid(img, rows, cols) && forall y, x :: 0 <= y < rows && 0 <= x < cols ==> img[y][x] == v
  }

  lemma UniformCentre(cal: Calibration, rows: nat, cols: nat, k: nat, p: Vec3, w: Vec3)
    requires Shaped(cal, rows, cols) && WhiteNonZero(cal, rows, cols) && k < 3 && CentreNonEmpty(rows, cols)
    requires Uniform(cal.Run(k), rows, cols, p) && Uniform(cal.white, rows, cols, w) && NonZero(w)
    ensures CentreOf(cal, rows, cols, k) == Ok(Ratio(p, w))
  {
    CentralColourConstant(RatioImage(cal.Run(k), cal.white, rows, cols), rows, cols, Ratio(p, w));
  }

  /** A calibration run that is the same at every pixel needs no
      correction against its own centre: every matrix is the identity. */
  lemma UniformCalibrationIsIdentity(cal: Calibration, rows: nat, cols: nat, target: string,
                                      r: Vec3, g: Vec3, b: Vec3, w: Vec3, i: nat, j: nat)
    requires Uniform(cal.red, rows, cols, r) && Uniform(cal.green, rows, cols, g)
    requires Uniform(cal.blue, rows, cols, b) && Uniform(cal.white, rows, cols, w)
    requires IsCentreTarget(target) && Compensation(cal, rows, cols, target).Ok?
    requires i < rows && j < cols
    ensures Compensation(cal, rows, cols, target).value[i][j] == Identity()
  {
    assert NonZero(w) by {
      assert NonZero(cal.white[i][j]);
    }
    UniformCentre(cal, rows, cols, 0, r, w);
    UniformCentre(cal, rows, cols, 1, g, w);
    UniformCentre(cal, rows, cols, 2, b, w);
    var m := CrosstalkAt(cal, rows, cols, i, j);
    assert Transpose(CentreResponse(cal, rows, cols).value) == m;
    var inv := InvertField(Crosstalk(cal, rows, cols).value, rows, cols).value[i][j];
    assert IsInverse(m, inv);
    assert Compensation(cal, rows, cols, target).value[i][j] == Mul(m, inv);
  }

  lemma SumOfColumns(m: Mat3)
    ensures MulVec(m, Vec3(1.0, 1.0, 1.0)) == Add(Add(Col(m, 0), Col(m, 1)), Col(m, 2))
  {
  }

  lemma RatioOfSum(a: Vec3, b: Vec3, c: Vec3, w: Vec3)
    requires NonZero(w) && Add(Add(a, b), c) == w
    ensures Add(Add(Ratio(a, w), Ratio(b, w)), Ratio(c, w)) == Vec3(1.0, 1.0, 1.0)
  {
    var x, y, z := Ratio(a, w), Ratio(b, w), Ratio(c, w);
    assert a.v0 + b.v0 + c.v0 == w.v0 && a.v1 + b.v1 + c.v1 == w.v1 && a.v2 + b.v2 + c.v2 == w.v2;
    SharesOfWhole(x.v0, y.v0, z.v0, a.v0, b.v0, c.v0, w.v0);
    SharesOfWhole(x.v1, y.v1, z.v1, a.v1, b.v1, c.v1, w.v1);
    SharesOfWhole(x.v2, y.v2, z.v2, a.v2, b.v2, c.v2, w.v2);
  }

  lemma SharesOfWhole(x: real, y: real, z: real, a: real, b: real, c: real, w: real)
    requires w != 0.0 && x * w == a && y * w == b && z * w == c && a + b + c == w
    ensures x + y + z == 1.0
  {
    assert (x + y + z - 1.0) * w == 0.0;
  }

  /** Where the white image is the sum of the three primaries, as it is for
      a linear sensor, the plain-target matrix maps white-relative white
      `(1, 1, 1)` to itself. */
  lemma AdditiveWhiteIsFixed(cal: Calibration, rows: nat, cols: nat, target: string, i: nat, j: nat)
    requires !IsCentreTarget(target) && Compensation(cal, rows, cols, target).Ok?
    requires i < rows && j < cols
    requires Add(Add(cal.red[i][j], cal.green[i][j]), cal.blue[i][j]) == cal.white[i][j]
    ensures MulVec(Compensation(cal, rows, cols, target).value[i][j], Vec3(1.0, 1.0, 1.0)) == Vec3(1.0, 1.0, 1.0)
  {
    var m := CrosstalkAt(cal, rows, cols, i, j);
    var inv := Compensation(cal, rows, cols, target).value[i][j];
    var ones := Vec3(1.0, 1.0, 1.0);
    var w := cal.white[i][j];
    SumOfColumns(m);
    RatioOfSum(cal.red[i][j], cal.green[i][j], cal.blue[i][j], w);
    assert MulVec(m, ones) == ones;
    RgbTargetInverts(cal, rows, cols, target, i, j);
    MulVecMul(inv, m, ones);
    MulVecIdentity(ones);
  }

  // ---- applying the matrices ----

  /** A field of identity matrices leaves the image unchanged. */
  lemma UnmixIdentity(comp: Field, img: Image, rows: nat, cols: nat)
    requires IsGrid(img, rows, cols) && IsGrid(comp, rows, cols)
    requires forall i, j :: 0 <= i < rows && 0 <= j < cols ==> comp[i][j] == Identity()
    ensures UnmixImage(comp, img, rows, cols) == Ok(img)
  {
    var out := UnmixImage(comp, img, rows, cols).value;
    forall i | 0 <= i < rows
      ensures out[i] == img[i]
    {
      forall j | 0 <= j < cols
        ensures out[i][j] == img[i][j]
      {
        MulVecIdentity(img[i][j]);
      }
    }
    assert out == img;
  }

  /** Component `a` of an unmixed pixel is the sum over `b` in the source:
      `sum_b compensation[a][b] * image[b]`. */
  lemma UnmixPixel(comp: Field, img: Image, rows: nat, cols: nat, i: nat, j: nat, a: nat)
    requires IsGrid(img, rows, cols) && IsGrid(comp, rows, cols) && i < rows && j < cols && a < 3
    ensures UnmixImage(comp, img, rows, cols).value[i][j].At(a)
      == comp[i][j].At(a, 0) * img[i][j].At(0) + comp[i][j].At(a, 1) * img[i][j].At(1) + comp[i][j].At(a, 2) * img[i][j].At(2)
  {
    MulVecAt(comp[i][j], img[i][j], a);
  }

  /** Inverse matrices undo the mixing: an image recorded through each
      block's matrix comes back as the scene. */
  lemma UnmixUndoesMixing(comp: Field, mix: Field, scene: Image, img: Image, rows: nat, cols: nat)
    requires IsGrid(comp, rows, cols) && IsGrid(mix, rows, cols) && IsGrid(scene, rows, cols) && IsGrid(img, rows, cols)
    requires forall i, j :: 0 <= i < rows && 0 <= j < cols ==>
      IsInverse(mix[i][j], comp[i][j]) && img[i][j] == MulVec(mix[i][j], scene[i][j])
    ensures UnmixImage(comp, img, rows, cols) == Ok(scene)
  {
    var out := UnmixImage(comp, img, rows, cols).value;
    forall i | 0 <= i < rows
      ensures out[i] == scene[i]
    {
      forall j | 0 <= j < cols
        ensures out[i][j] == scene[i][j]
      {
        MulVecMul(comp[i][j], mix[i][j], scene[i][j]);
        MulVecIdentity(scene[i][j]);
      }
    }
    assert out == scene;
  }

  /** The whole pipeline with the plain target and no smoothing: an image
      whose every pixel mixes a scene colour through that block's crosstalk
      unmixes to the scene. */
  lemma ColourUnmixRecoversScene(img: Image, cal: Calibration, rows: nat, cols: nat, target: string, scene: Image)
    requires IsGrid(img, rows, cols) && IsGrid(scene, rows, cols)
    requires !IsCentreTarget(target) && Compensation(cal, rows, cols, target).Ok?
    requires forall i, j :: 0 <= i < rows && 0 <= j < cols ==>
      img[i][j] == MulVec(CrosstalkAt(cal, rows, cols, i, j), scene[i][j])
    ensures ColourUnmixImage(img, cal, rows, cols, target, None) == Ok(scene)
  {
    var comp := Compensation(cal, rows, cols, target).value;
    var mix := Crosstalk(cal, rows, cols).value;
    forall i, j | 0 <= i < rows && 0 <= j < cols
      ensures IsInverse(mix[i][j], comp[i][j])
    {
      RgbTargetInverts(cal, rows, cols, target, i, j);
    }
    UnmixUndoesMixing(comp, mix, scene, img, rows, cols);
  }

  /** The whole pipeline with the centre target and no smoothing: every
      pixel comes out as the centre of the sensor would have recorded its
      scene colour. */
  lemma ColourUnmixRecentres(img: Image, cal: Calibration, rows: nat, cols: nat, target: string, scene: Image,
                             i: nat, j: nat)
    requires IsGrid(img, rows, cols) && IsGrid(scene, rows, cols) && i < rows && j < cols
    requires IsCentreTarget(target) && Compensation(cal, rows, cols, target).Ok?
    requires img[i][j] == MulVec(CrosstalkAt(cal, rows, cols, i, j), scene[i][j])
    ensures ColourUnmixImage(img, cal, rows, cols, target, None).Ok?
    ensures ColourUnmixImage(img, cal, rows, cols, target, None).value[i][j]
      == MulVec(Transpose(CentreResponse(cal, rows, cols).value), scene[i][j])
  {
    var comp := Compensation(cal, rows, cols, target).value;
    CentreTargetRecentres(cal, rows, cols, target, i, j);
    MulVecMul(comp[i][j], CrosstalkAt(cal, rows, cols, i, j), scene[i][j]);
  }
}
