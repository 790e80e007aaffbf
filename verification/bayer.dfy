/** `PiBayerArray`: Bayer colour sites, plane expansion of the raw array,
    the windowed demosaic, and the `flush` that locates and decodes the raw
    block at the end of a JPEG. */
module Bayer {
  import opened Results
  import opened Grids
  import opened Bits
  import Unpack10
  import RawGeometry

  datatype BayerError =
    | BadOutputDims      // output_dims outside 2..3
    | UnknownBayerOrder  // KeyError on BAYER_OFFSETS
    | NotFlushed         // no header or array yet
    | UnknownSensor      // KeyError on the offset table
    | NoBayerData        // the tail does not start with the magic
    | ShortBuffer        // less data than the fixed 32768-byte preamble
    | StrideMismatch     // the pixel bytes do not fill the padded stride
    | NotWholeGroups     // a row is not a whole number of 5-byte groups
    | ShapeMismatch      // the fast demosaic's slices cannot be broadcast together

  /** Position of a colour site in the 2x2 Bayer tile: row and column parity. */
  datatype Site = Site(y: nat, x: nat)

  /** The red, first green, second green and blue sites of each Bayer order. */
  function BayerOffsets(order: nat): (r: Option<seq<Site>>)
    ensures r.Some? <==> order < 4
    ensures r.Some? ==> |r.value| == 4
  {
    if order == 0 then Some([Site(0, 0), Site(1, 0), Site(0, 1), Site(1, 1)])
    else if order == 1 then Some([Site(1, 0), Site(0, 0), Site(1, 1), Site(0, 1)])
    else if order == 2 then Some([Site(1, 1), Site(0, 1), Site(1, 0), Site(0, 0)])
    else if order == 3 then Some([Site(0, 1), Site(1, 1), Site(0, 0), Site(1, 0)])
    else None
  }

  /** Colour plane fed by site k: red, green, green, blue. */
  function SitePlane(k: nat): (p: nat)
    requires k < 4
    ensures p < 3
  {
    [0, 1, 1, 2][k]
  }

  predicate InTile(s: Site) {
    s.y < 2 && s.x < 2
  }

  /** Every Bayer order lists the four positions of the 2x2 tile, each once. */
  lemma OffsetsPermutation(order: nat)
    requires order < 4
    ensures forall k :: 0 <= k < 4 ==> InTile(BayerOffsets(order).value[k])
    ensures forall k, k' :: 0 <= k < k' < 4 ==> BayerOffsets(order).value[k] != BayerOffsets(order).value[k']
    ensures forall s :: InTile(s) ==> s in BayerOffsets(order).value
  {
    var offs := BayerOffsets(order).value;
    forall s | InTile(s)
      ensures s in offs
    {
      if s.y == 0 && s.x == 0 {
        assert s == Site(0, 0);
      } else if s.y == 0 {
        assert s == Site(0, 1);
      } else if s.x == 0 {
        assert s == Site(1, 0);
      } else {
        assert s == Site(1, 1);
      }
    }
  }

  /** The site index of a tile position within an order's offsets. */
  function SiteIndex(offs: seq<Site>, s: Site): (k: nat)
    requires s in offs
    ensures k < |offs| && offs[k] == s
    ensures forall k' :: 0 <= k' < k ==> offs[k'] != s
  {
    if offs[0] == s then 0 else 1 + SiteIndex(offs[1..], s)
  }

  /** The plane that receives pixel (i, j) under a given order. */
  function PlaneAt(order: nat, i: nat, j: nat): (p: nat)
    requires order < 4
    ensures p < 3
  {
    OffsetsPermutation(order);
    SitePlane(SiteIndex(BayerOffsets(order).value, Site(i % 2, j % 2)))
  }

  function SetPlane(px: Rgb<nat>, plane: nat, v: nat): (r: Rgb<nat>)
    requires plane < 3
    ensures r.At(plane) == v
    ensures forall q :: 0 <= q < 3 && q != plane ==> r.At(q) == px.At(q)
  {
    if plane == 0 then px.(r := v) else if plane == 1 then px.(g := v) else px.(b := v)
  }

  function Zeros(rows: nat, cols: nat): (z: seq<seq<Rgb<nat>>>)
    ensures IsGrid(z, rows, cols)
  {
    seq(rows, i => seq(cols, j => Rgb(0, 0, 0)))
  }

  /** `out[s.y::2, s.x::2, plane] = a[s.y::2, s.x::2]` */
  function AssignSite(out: seq<seq<Rgb<nat>>>, a: seq<seq<nat>>, rows: nat, cols: nat, s: Site, plane: nat)
    : (r: seq<seq<Rgb<nat>>>)
    requires IsGrid(out, rows, cols) && IsGrid(a, rows, cols) && plane < 3
    ensures IsGrid(r, rows, cols)
  {
    seq(rows, i requires 0 <= i < rows =>
      seq(cols, j requires 0 <= j < cols =>
        if i % 2 == s.y && j % 2 == s.x then SetPlane(out[i][j], plane, a[i][j]) else out[i][j]))
  }

  /** `_to_3d`: a zero array of the same shape with a plane axis, then one
      strided copy per site in the order red, green, green, blue. */
  function ToPlanes(a: seq<seq<nat>>, rows: nat, cols: nat, offs: seq<Site>): (r: seq<seq<Rgb<nat>>>)
    requires IsGrid(a, rows, cols) && |offs| == 4
    ensures IsGrid(r, rows, cols)
  {
    var r0 := AssignSite(Zeros(rows, cols), a, rows, cols, offs[0], SitePlane(0));
    var r1 := AssignSite(r0, a, rows, cols, offs[1], SitePlane(1));
    var r2 := AssignSite(r1, a, rows, cols, offs[2], SitePlane(2));
    AssignSite(r2, a, rows, cols, offs[3], SitePlane(3))
  }

  /** `_to_3d` with the order looked up in the header; an order outside
      the table is a `KeyError`. */
  function To3d(a: seq<seq<nat>>, rows: nat, cols: nat, order: nat): (r: Result<seq<seq<Rgb<nat>>>, BayerError>)
    requires IsGrid(a, rows, cols)
    ensures r.Ok? <==> order < 4
    ensures r.Ok? ==> IsGrid(r.value, rows, cols)
    ensures r.Ok? ==> forall i, j, p :: 0 <= i < rows && 0 <= j < cols && 0 <= p < 3 ==>
      r.value[i][j].At(p) == if p == PlaneAt(order, i, j) then a[i][j] else 0
  {
    match BayerOffsets(order)
    case None => Err(UnknownBayerOrder)
    case Some(offs) =>
      var planes := ToPlanes(a, rows, cols, offs);
      forall i, j, p | 0 <= i < rows && 0 <= j < cols && 0 <= p < 3
        ensures planes[i][j].At(p) == if p == PlaneAt(order, i, j) then a[i][j] else 0
      {
        ToPlanesAt(a, rows, cols, order, i, j);
      }
      Ok(planes)
  }

  lemma ToPlanesAt(a: seq<seq<nat>>, rows: nat, cols: nat, order: nat, i: nat, j: nat)
    requires IsGrid(a, rows, cols) && order < 4 && i < rows && j < cols
    ensures var planes := ToPlanes(a, rows, cols, BayerOffsets(order).value);
      forall p :: 0 <= p < 3 ==> planes[i][j].At(p) == if p == PlaneAt(order, i, j) then a[i][j] else 0
  {
    var offs := BayerOffsets(order).value;
    OffsetsPermutation(order);
    var s := Site(i % 2, j % 2);
    var k := SiteIndex(offs, s);
    var r0 := AssignSite(Zeros(rows, cols), a, rows, cols, offs[0], SitePlane(0));
    var r1 := AssignSite(r0, a, rows, cols, offs[1], SitePlane(1));
    var r2 := AssignSite(r1, a, rows, cols, offs[2], SitePlane(2));
    var r3 := AssignSite(r2, a, rows, cols, offs[3], SitePlane(3));
    var v := a[i][j];
    var px := SetPlane(Rgb(0, 0, 0), SitePlane(k), v);
    if k == 0 {
      assert r0[i][j] == px && r1[i][j] == px && r2[i][j] == px && r3[i][j] == px;
    } else if k == 1 {
      assert r1[i][j] == px && r2[i][j] == px && r3[i][j] == px;
    } else if k == 2 {
      assert r1[i][j] == Rgb(0, 0, 0) && r2[i][j] == px && r3[i][j] == px;
    } else {
      assert r2[i][j] == Rgb(0, 0, 0) && r3[i][j] == px;
    }
  }

  /** Adding the three planes of an expanded array gives back the raw array. */
  lemma PlanesSumToRaw(a: seq<seq<nat>>, rows: nat, cols: nat, order: nat, i: nat, j: nat)
    requires IsGrid(a, rows, cols) && order < 4 && i < rows && j < cols
    ensures var px := To3d(a, rows, cols, order).value[i][j];
      px.r + px.g + px.b == a[i][j]
  {
    var px := To3d(a, rows, cols, order).value[i][j];
    assert px.r == px.At(0) && px.g == px.At(1) && px.b == px.At(2);
  }

  // ---- PiBayerArray.demosaic ----

  function Ones(rows: nat, cols: nat): (o: seq<seq<nat>>)
    ensures IsGrid(o, rows, cols)
  {
    seq(rows, i => seq(cols, j => 1))
  }

  /** Plane p of an expanded array framed by one row and column of zeros on
      each side, addressed in the unpadded coordinates. */
  function PaddedAt(g: seq<seq<Rgb<nat>>>, rows: nat, cols: nat, y: int, x: int, p: nat): nat
    requires IsGrid(g, rows, cols) && p < 3
  {
    if 0 <= y < rows && 0 <= x < cols then g[y][x].At(p) else 0
  }

  function WindowRow(g: seq<seq<Rgb<nat>>>, rows: nat, cols: nat, y: int, j: nat, p: nat): nat
    requires IsGrid(g, rows, cols) && p < 3
  {
    PaddedAt(g, rows, cols, y, j - 1, p) + PaddedAt(g, rows, cols, y, j, p) + PaddedAt(g, rows, cols, y, j + 1, p)
  }

  /** The `einsum('ijkl->ij')` of the 3x3 strided view centred on (i, j). */
  function WindowSum(g: seq<seq<Rgb<nat>>>, rows: nat, cols: nat, i: nat, j: nat, p: nat): nat
    requires IsGrid(g, rows, cols) && p < 3
  {
    WindowRow(g, rows, cols, i - 1, j, p) + WindowRow(g, rows, cols, i, j, p) + WindowRow(g, rows, cols, i + 1, j, p)
  }

  /** `psum // bsum` with the window sums held in `uint16` and `uint8`;
      numpy's integer division by zero yields 0. */
  function WindowAverage(psum: nat, bsum: nat): nat {
    var s := psum % 65536;
    var n := bsum % 256;
    if n == 0 then 0 else s / n
  }

  /** The demosaic of an expanded array: each plane of each pixel is the
      average of the same plane over the 3x3 window, weighted by the Bayer
      mask built the same way as `_to_3d` but from ones. */
  function DemosaicPlanes(planes: seq<seq<Rgb<nat>>>, rows: nat, cols: nat, order: nat)
    : (r: Result<seq<seq<Rgb<nat>>>, BayerError>)
    requires IsGrid(planes, rows, cols)
    ensures r.Ok? <==> order < 4
    ensures r.Ok? ==> IsGrid(r.value, rows, cols)
    ensures r.Ok? ==> forall i, j, p :: 0 <= i < rows && 0 <= j < cols && 0 <= p < 3 ==>
      r.value[i][j].At(p) == WindowAverage(WindowSum(planes, rows, cols, i, j, p), SiteCount(order, rows, cols, i, j, p))
    ensures r.Ok? && 2 <= rows && 2 <= cols && TenBitPlanes(planes, rows, cols) ==>
      forall i, j, p :: 0 <= i < rows && 0 <= j < cols && 0 <= p < 3 ==>
        1 <= SiteCount(order, rows, cols, i, j, p) <= 9 &&
        r.value[i][j].At(p) == WindowSum(planes, rows, cols, i, j, p) / SiteCount(order, rows, cols, i, j, p)
  {
    match BayerOffsets(order)
    case None => Err(UnknownBayerOrder)
    case Some(offs) =>
      var mask := ToPlanes(Ones(rows, cols), rows, cols, offs);
      var out := seq(rows, i requires 0 <= i < rows => seq(cols, j requires 0 <= j < cols =>
        AveragePixel(planes, mask, rows, cols, i, j)));
      assert forall i, j :: 0 <= i < rows && 0 <= j < cols ==> out[i][j] == AveragePixel(planes, mask, rows, cols, i, j);
      if 2 <= rows && 2 <= cols && TenBitPlanes(planes, rows, cols) then
        AveragesAreMeans(planes, rows, cols, order);
        Ok(out)
      else
        Ok(out)
  }

  /** Every plane value of every pixel fits in 10 bits. */
  predicate TenBitPlanes(g: seq<seq<Rgb<nat>>>, rows: nat, cols: nat)
    requires IsGrid(g, rows, cols)
  {
    forall i, j, p :: 0 <= i < rows && 0 <= j < cols && 0 <= p < 3 ==> g[i][j].At(p) < 1024
  }

  lemma AveragesAreMeans(planes: seq<seq<Rgb<nat>>>, rows: nat, cols: nat, order: nat)
    requires IsGrid(planes, rows, cols) && TenBitPlanes(planes, rows, cols) && order < 4 && 2 <= rows && 2 <= cols
    ensures forall i, j, p :: 0 <= i < rows && 0 <= j < cols && 0 <= p < 3 ==>
      1 <= SiteCount(order, rows, cols, i, j, p) <= 9 &&
      WindowAverage(WindowSum(planes, rows, cols, i, j, p), SiteCount(order, rows, cols, i, j, p))
        == WindowSum(planes, rows, cols, i, j, p) / SiteCount(order, rows, cols, i, j, p)
  {
    forall i, j, p | 0 <= i < rows && 0 <= j < cols && 0 <= p < 3
      ensures 1 <= SiteCount(order, rows, cols, i, j, p) <= 9 &&
        WindowAverage(WindowSum(planes, rows, cols, i, j, p), SiteCount(order, rows, cols, i, j, p))
          == WindowSum(planes, rows, cols, i, j, p) / SiteCount(order, rows, cols, i, j, p)
    {
      AverageIsMean(planes, rows, cols, order, i, j, p);
    }
  }

  /** On 10-bit planes of at least 2x2 pixels neither the `uint16` window sum
      nor the `uint8` site count wraps and the count is never zero, so the
      window average is the floor of the mean. */
  lemma AverageIsMean(planes: seq<seq<Rgb<nat>>>, rows: nat, cols: nat, order: nat, i: nat, j: nat, p: nat)
    requires IsGrid(planes, rows, cols) && TenBitPlanes(planes, rows, cols) && order < 4
    requires 2 <= rows && 2 <= cols && i < rows && j < cols && p < 3
    ensures 1 <= SiteCount(order, rows, cols, i, j, p) <= 9
    ensures WindowAverage(WindowSum(planes, rows, cols, i, j, p), SiteCount(order, rows, cols, i, j, p))
      == WindowSum(planes, rows, cols, i, j, p) / SiteCount(order, rows, cols, i, j, p)
  {
    var n := SiteCount(order, rows, cols, i, j, p);
    var sum := WindowSum(planes, rows, cols, i, j, p);
    SiteCountPositive(order, rows, cols, i, j, p);
    forall y: int, x: int
      ensures PaddedAt(planes, rows, cols, y, x, p) < 1024
    {
    }
    assert sum < 65536;
    DivModUnique(sum, 65536, 0, sum);
    DivModUnique(n, 256, 0, n);
  }

  function AveragePixel(planes: seq<seq<Rgb<nat>>>, mask: seq<seq<Rgb<nat>>>, rows: nat, cols: nat, i: nat, j: nat)
    : (px: Rgb<nat>)
    requires IsGrid(planes, rows, cols) && IsGrid(mask, rows, cols)
    ensures forall p :: 0 <= p < 3 ==>
      px.At(p) == WindowAverage(WindowSum(planes, rows, cols, i, j, p), WindowSum(mask, rows, cols, i, j, p))
  {
    Rgb(WindowAverage(WindowSum(planes, rows, cols, i, j, 0), WindowSum(mask, rows, cols, i, j, 0)),
        WindowAverage(WindowSum(planes, rows, cols, i, j, 1), WindowSum(mask, rows, cols, i, j, 1)),
        WindowAverage(WindowSum(planes, rows, cols, i, j, 2), WindowSum(mask, rows, cols, i, j, 2)))
  }

  /** Number of sites of plane p inside the 3x3 window at (i, j). */
  function SiteCount(order: nat, rows: nat, cols: nat, i: nat, j: nat, p: nat): nat
    requires order < 4 && p < 3
  {
    WindowSum(ToPlanes(Ones(rows, cols), rows, cols, BayerOffsets(order).value), rows, cols, i, j, p)
  }

  /** The Bayer mask is 1 exactly where the pixel belongs to the plane. */
  lemma MaskAt(order: nat, rows: nat, cols: nat, y: nat, x: nat, p: nat)
    requires order < 4 && y < rows && x < cols && p < 3
    ensures ToPlanes(Ones(rows, cols), rows, cols, BayerOffsets(order).value)[y][x].At(p) ==
      if p == PlaneAt(order, y, x) then 1 else 0
  {
    ToPlanesAt(Ones(rows, cols), rows, cols, order, y, x);
  }

  lemma WindowCovers(g: seq<seq<Rgb<nat>>>, rows: nat, cols: nat, i: nat, j: nat, p: nat, y: int, x: int)
    requires IsGrid(g, rows, cols) && p < 3
    requires i - 1 <= y <= i + 1 && j - 1 <= x <= j + 1
    ensures WindowSum(g, rows, cols, i, j, p) >= PaddedAt(g, rows, cols, y, x, p)
  {
  }

  /** The tile position of the site feeding plane p, for the first site of that plane. */
  function PlaneSite(order: nat, p: nat): (s: Site)
    requires order < 4 && p < 3
    ensures InTile(s)
  {
    OffsetsPermutation(order);
    BayerOffsets(order).value[[0, 1, 3][p]]
  }

  /** A row within one of i and its neighbours with the wanted parity, when
      there are at least two rows. */
  function Neighbour(i: nat, rows: nat, parity: nat): (y: nat)
    requires 2 <= rows && i < rows && parity < 2
    ensures y < rows && y % 2 == parity && i - 1 <= y <= i + 1
  {
    if i % 2 == parity then i else if i + 1 < rows then i + 1 else i - 1
  }

  /** Every 3x3 window of an image of at least 2x2 pixels contains a site
      of every plane, so the division in the demosaic never sees zero. */
  lemma SiteCountPositive(order: nat, rows: nat, cols: nat, i: nat, j: nat, p: nat)
    requires order < 4 && 2 <= rows && 2 <= cols && i < rows && j < cols && p < 3
    ensures 1 <= SiteCount(order, rows, cols, i, j, p) <= 9
  {
    var offs := BayerOffsets(order).value;
    OffsetsPermutation(order);
    var mask := ToPlanes(Ones(rows, cols), rows, cols, offs);
    var s := PlaneSite(order, p);
    var y, x := Neighbour(i, rows, s.y), Neighbour(j, cols, s.x);
    var k := [0, 1, 3][p];
    assert Site(y % 2, x % 2) == s == offs[k];
    assert SiteIndex(offs, s) == k;
    MaskAt(order, rows, cols, y, x, p);
    WindowCovers(mask, rows, cols, i, j, p, y, x);
    MaskWindowBound(order, rows, cols, i, j, p);
  }

  lemma MaskWindowBound(order: nat, rows: nat, cols: nat, i: nat, j: nat, p: nat)
    requires order < 4 && p < 3
    ensures SiteCount(order, rows, cols, i, j, p) <= 9
  {
    var mask := ToPlanes(Ones(rows, cols), rows, cols, BayerOffsets(order).value);
    forall y: int, x: int
      ensures PaddedAt(mask, rows, cols, y, x, p) <= 1
    {
      if 0 <= y < rows && 0 <= x < cols {
        MaskAt(order, rows, cols, y, x, p);
      }
    }
  }

  /** An expanded array and the Bayer mask agree on where each plane has data. */
  lemma ExpandedAt(raw: seq<seq<nat>>, rows: nat, cols: nat, order: nat, y: int, x: int, p: nat)
    requires IsGrid(raw, rows, cols) && order < 4 && p < 3
    ensures var planes := To3d(raw, rows, cols, order).value;
      var mask := ToPlanes(Ones(rows, cols), rows, cols, BayerOffsets(order).value);
      PaddedAt(mask, rows, cols, y, x, p) <= 1 &&
      (PaddedAt(mask, rows, cols, y, x, p) == 0 ==> PaddedAt(planes, rows, cols, y, x, p) == 0) &&
      (PaddedAt(mask, rows, cols, y, x, p) == 1 ==> PaddedAt(planes, rows, cols, y, x, p) == raw[y][x])
  {
    if 0 <= y < rows && 0 <= x < cols {
      MaskAt(order, rows, cols, y, x, p);
    }
  }

  predicate TenBitGrid(raw: seq<seq<nat>>, rows: nat, cols: nat)
    requires IsGrid(raw, rows, cols)
  {
    forall i, j :: 0 <= i < rows && 0 <= j < cols ==> raw[i][j] < 1024
  }

  /** On 10-bit data every window sum is at most 1023 per same-colour site. */
  lemma WindowSumBound(raw: seq<seq<nat>>, rows: nat, cols: nat, order: nat, i: nat, j: nat, p: nat)
    requires IsGrid(raw, rows, cols) && TenBitGrid(raw, rows, cols) && order < 4 && p < 3
    ensures WindowSum(To3d(raw, rows, cols, order).value, rows, cols, i, j, p) <= 1023 * SiteCount(order, rows, cols, i, j, p)
  {
    var planes := To3d(raw, rows, cols, order).value;
    var mask := ToPlanes(Ones(rows, cols), rows, cols, BayerOffsets(order).value);
    forall y: int, x: int
      ensures PaddedAt(planes, rows, cols, y, x, p) <= 1023 * PaddedAt(mask, rows, cols, y, x, p)
    {
      ExpandedAt(raw, rows, cols, order, y, x, p);
    }
  }

  /** For 10-bit data and an image of at least 2x2 pixels, the demosaic is the
      floor of the same-colour window sum over the same-colour site count:
      neither the `uint16` sum nor the `uint8` count wraps, nothing divides by
      zero, and the result stays within 10 bits. */
  lemma DemosaicMean(raw: seq<seq<nat>>, rows: nat, cols: nat, order: nat, i: nat, j: nat, p: nat)
    requires IsGrid(raw, rows, cols) && TenBitGrid(raw, rows, cols) && order < 4
    requires 2 <= rows && 2 <= cols && i < rows && j < cols && p < 3
    ensures var planes := To3d(raw, rows, cols, order).value;
      var n := SiteCount(order, rows, cols, i, j, p);
      var out := DemosaicPlanes(planes, rows, cols, order).value[i][j].At(p);
      1 <= n <= 9 && out == WindowSum(planes, rows, cols, i, j, p) / n && out < 1024
  {
    var planes := To3d(raw, rows, cols, order).value;
    var n := SiteCount(order, rows, cols, i, j, p);
    var sum := WindowSum(planes, rows, cols, i, j, p);
    SiteCountPositive(order, rows, cols, i, j, p);
    WindowSumBound(raw, rows, cols, order, i, j, p);
    DivModUnique(sum, 65536, 0, sum);
    DivModUnique(n, 256, 0, n);
    DivBelow(sum, n, 1024);
  }

  lemma DivBelow(a: nat, n: nat, m: nat)
    requires 1 <= n && a < m * n
    ensures a / n < m
  {
    var q := a / n;
    assert n * q <= a;
    if q >= m {
      MulLeft(n, m, q);
      assert false;
    }
  }

  lemma MulLeft(n: nat, a: nat, b: nat)
    requires a <= b
    ensures n * a <= n * b
  {
  }

  /** Demosaicing a flat field gives the same value in every plane of every
      pixel, for any image of at least 2x2 pixels and any value whose nine-fold
      sum fits in `uint16`. */
  lemma DemosaicFlatField(rows: nat, cols: nat, order: nat, v: nat, i: nat, j: nat)
    requires order < 4 && 2 <= rows && 2 <= cols && i < rows && j < cols && 9 * v < 65536
    ensures var raw := seq(rows, y => seq(cols, x => v));
      IsGrid(raw, rows, cols) &&
      DemosaicPlanes(To3d(raw, rows, cols, order).value, rows, cols, order).value[i][j] == Rgb(v, v, v)
  {
    var raw := seq(rows, y => seq(cols, x => v));
    var out := DemosaicPlanes(To3d(raw, rows, cols, order).value, rows, cols, order).value[i][j];
    FlatFieldPlane(raw, rows, cols, order, v, i, j, 0);
    FlatFieldPlane(raw, rows, cols, order, v, i, j, 1);
    FlatFieldPlane(raw, rows, cols, order, v, i, j, 2);
    assert out.r == out.At(0) && out.g == out.At(1) && out.b == out.At(2);
  }

  lemma FlatFieldPlane(raw: seq<seq<nat>>, rows: nat, cols: nat, order: nat, v: nat, i: nat, j: nat, p: nat)
    requires IsGrid(raw, rows, cols) && forall y, x :: 0 <= y < rows && 0 <= x < cols ==> raw[y][x] == v
    requires order < 4 && 2 <= rows && 2 <= cols && i < rows && j < cols && 9 * v < 65536 && p < 3
    ensures DemosaicPlanes(To3d(raw, rows, cols, order).value, rows, cols, order).value[i][j].At(p) == v
  {
    var planes := To3d(raw, rows, cols, order).value;
    FlatWindow(raw, rows, cols, order, v, i, j, p);
    SiteCountPositive(order, rows, cols, i, j, p);
    FlatAverage(v, SiteCount(order, rows, cols, i, j, p));
  }

  lemma FlatWindow(raw: seq<seq<nat>>, rows: nat, cols: nat, order: nat, v: nat, i: nat, j: nat, p: nat)
    requires IsGrid(raw, rows, cols) && forall y, x :: 0 <= y < rows && 0 <= x < cols ==> raw[y][x] == v
    requires order < 4 && p < 3
    ensures WindowSum(To3d(raw, rows, cols, order).value, rows, cols, i, j, p) == v * SiteCount(order, rows, cols, i, j, p)
  {
    var planes := To3d(raw, rows, cols, order).value;
    var mask := ToPlanes(Ones(rows, cols), rows, cols, BayerOffsets(order).value);
    forall y: int, x: int
      ensures PaddedAt(planes, rows, cols, y, x, p) == v * PaddedAt(mask, rows, cols, y, x, p)
    {
      ExpandedAt(raw, rows, cols, order, y, x, p);
    }
    ScaledWindow(planes, mask, rows, cols, v, i, j, p);
  }

  lemma FlatAverage(v: nat, n: nat)
    requires 1 <= n <= 9 && 9 * v < 65536
    ensures WindowAverage(v * n, n) == v
  {
    MulLeft(v, n, 9);
    DivModUnique(v * n, 65536, 0, v * n);
    DivModUnique(n, 256, 0, n);
    DivModUnique(v * n, n, v, 0);
  }

  lemma ScaledWindow(g: seq<seq<Rgb<nat>>>, h: seq<seq<Rgb<nat>>>, rows: nat, cols: nat, v: nat, i: nat, j: nat, p: nat)
    requires IsGrid(g, rows, cols) && IsGrid(h, rows, cols) && p < 3
    requires forall y: int, x: int :: PaddedAt(g, rows, cols, y, x, p) == v * PaddedAt(h, rows, cols, y, x, p)
    ensures WindowSum(g, rows, cols, i, j, p) == v * WindowSum(h, rows, cols, i, j, p)
  {
    ScaledRow(g, h, rows, cols, v, i - 1, j, p);
    ScaledRow(g, h, rows, cols, v, i, j, p);
    ScaledRow(g, h, rows, cols, v, i + 1, j, p);
    Distribute(v, WindowRow(h, rows, cols, i - 1, j, p), WindowRow(h, rows, cols, i, j, p), WindowRow(h, rows, cols, i + 1, j, p));
  }

  lemma Distribute(v: nat, a: nat, b: nat, c: nat)
    ensures v * a + v * b + v * c == v * (a + b + c)
  {
  }

  lemma ScaledRow(g: seq<seq<Rgb<nat>>>, h: seq<seq<Rgb<nat>>>, rows: nat, cols: nat, v: nat, y: int, j: nat, p: nat)
    requires IsGrid(g, rows, cols) && IsGrid(h, rows, cols) && p < 3
    requires forall y: int, x: int :: PaddedAt(g, rows, cols, y, x, p) == v * PaddedAt(h, rows, cols, y, x, p)
    ensures WindowRow(g, rows, cols, y, j, p) == v * WindowRow(h, rows, cols, y, j, p)
  {
    Distribute(v, PaddedAt(h, rows, cols, y, j - 1, p), PaddedAt(h, rows, cols, y, j, p), PaddedAt(h, rows, cols, y, j + 1, p));
  }
}
