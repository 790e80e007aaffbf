/** Block averaging of calibration images: `bin` and the arithmetic of
    `load_raw_image_and_bin`, which bins a plane-expanded Bayer array and
    rebalances the planes for the sites each one leaves empty. */
module Binning {
  import opened Grids
  import opened Results
  import opened Matrix3
  import Bayer

  /** A floating-point colour image, one (R, G, B) triple per pixel. */
  type Image = seq<seq<Vec3>>

  /** Block side used when calibration images are loaded. */
  const Downsampling: nat := 16

  datatype BinError = ZeroBlockSize  // `w // 0` raises ZeroDivisionError

  // ---- sums over rectangles ----

  /** Sum of `img[y][c0 .. c0 + n]`. */
  function RowSum(img: Image, y: nat, c0: nat, n: nat): Vec3
    requires y < |img| && c0 + n <= |img[y]|
    decreases n
  {
    if n == 0 then Zero() else Add(RowSum(img, y, c0, n - 1), img[y][c0 + n - 1])
  }

  predicate Spans(img: Image, r0: nat, c0: nat, rows: nat, cols: nat) {
    r0 + rows <= |img| && forall y :: r0 <= y < r0 + rows ==> c0 + cols <= |img[y]|
  }

  /** Sum of the `rows` x `cols` rectangle whose top-left pixel is `(r0, c0)`. */
  function BlockSum(img: Image, r0: nat, c0: nat, rows: nat, cols: nat): Vec3
    requires Spans(img, r0, c0, rows, cols)
    decreases rows
  {
    if rows == 0 then Zero() else Add(BlockSum(img, r0, c0, rows - 1, cols), RowSum(img, r0 + rows - 1, c0, cols))
  }

  lemma {:induction false} RowSumConstant(img: Image, y: nat, c0: nat, n: nat, v: Vec3)
    requires y < |img| && c0 + n <= |img[y]|
    requires forall x :: c0 <= x < c0 + n ==> img[y][x] == v
    ensures RowSum(img, y, c0, n) == ScaleVec(n as real, v)
  {
    if n > 0 {
      RowSumConstant(img, y, c0, n - 1, v);
    }
  }

  lemma AddOneMore(a: real, u: Vec3)
    ensures Add(ScaleVec(a - 1.0, u), u) == ScaleVec(a, u)
  {
  }

  lemma {:induction false} BlockSumConstant(img: Image, r0: nat, c0: nat, rows: nat, cols: nat, v: Vec3)
    requires Spans(img, r0, c0, rows, cols)
    requires forall y, x :: r0 <= y < r0 + rows && c0 <= x < c0 + cols ==> img[y][x] == v
    ensures BlockSum(img, r0, c0, rows, cols) == ScaleVec(rows as real, ScaleVec(cols as real, v))
  {
    if rows > 0 {
      BlockSumConstant(img, r0, c0, rows - 1, cols, v);
      RowSumConstant(img, r0 + rows - 1, c0, cols, v);
      AddOneMore(rows as real, ScaleVec(cols as real, v));
    }
  }

  lemma {:induction false} RowSumAgree(img: Image, other: Image, y: nat, c0: nat, n: nat)
    requires y < |img| && c0 + n <= |img[y]| && y < |other| && c0 + n <= |other[y]|
    requires forall x :: c0 <= x < c0 + n ==> img[y][x] == other[y][x]
    ensures RowSum(img, y, c0, n) == RowSum(other, y, c0, n)
  {
    if n > 0 {
      RowSumAgree(img, other, y, c0, n - 1);
    }
  }

  /** A rectangle's sum depends on nothing outside it. */
  lemma {:induction false} BlockSumAgree(img: Image, other: Image, r0: nat, c0: nat, rows: nat, cols: nat)
    requires Spans(img, r0, c0, rows, cols) && Spans(other, r0, c0, rows, cols)
    requires forall y, x :: r0 <= y < r0 + rows && c0 <= x < c0 + cols ==> img[y][x] == other[y][x]
    ensures BlockSum(img, r0, c0, rows, cols) == BlockSum(other, r0, c0, rows, cols)
  {
    if rows > 0 {
      BlockSumAgree(img, other, r0, c0, rows - 1, cols);
      RowSumAgree(img, other, r0 + rows - 1, c0, cols);
    }
  }

  // ---- bin ----

  /** Block i of a dimension of length n cut into whole blocks of side b lies inside it. */
  lemma BlockInside(i: nat, n: nat, b: nat)
    requires b > 0 && i < n / b
    ensures b * i + b <= n / b * b <= n
  {
    assert b * (i + 1) <= b * (n / b);
  }

  lemma BlocksInside(n: nat, b: nat)
    requires b > 0
    ensures forall i: nat :: i < n / b ==> b * i + b <= n
  {
    forall i: nat | i < n / b
      ensures b * i + b <= n
    {
      BlockInside(i, n, b);
    }
  }

  /** Mean of the `b` x `b` block whose top-left pixel is `(r0, c0)`. */
  function BlockMean(img: Image, rows: nat, cols: nat, b: nat, r0: nat, c0: nat): Vec3
    requires IsGrid(img, rows, cols) && b > 0 && r0 + b <= rows && c0 + b <= cols
  {
    ScaleVec(PerPixel(b), BlockSum(img, r0, c0, b, b))
  }

  /** The weight of one pixel in the mean of a `b` x `b` block. */
  function PerPixel(b: nat): (w: real)
    requires b > 0
    ensures w * (b as real * b as real) == 1.0
  {
    1.0 / (b as real * b as real)
  }

  /** Cell `(i, j)` of the binned image: the mean of the block at `(b * i, b * j)`. */
  function BinMean(img: Image, rows: nat, cols: nat, b: nat, i: nat, j: nat): Vec3
    requires IsGrid(img, rows, cols) && b > 0 && i < rows / b && j < cols / b
  {
    BlockInside(i, rows, b);
    BlockInside(j, cols, b);
    BlockMean(img, rows, cols, b, b * i, b * j)
  }

  lemma BinMeanIsBlockMean(img: Image, rows: nat, cols: nat, b: nat, i: nat, j: nat)
    requires IsGrid(img, rows, cols) && b > 0 && i < rows / b && j < cols / b
    ensures b * i + b <= rows && b * j + b <= cols
    ensures BinMean(img, rows, cols, b, i, j) == BlockMean(img, rows, cols, b, b * i, b * j)
  {
    BlockInside(i, rows, b);
    BlockInside(j, cols, b);
  }

  /** `bin(image, b)`: the mean of every whole `b` x `b` block; trailing
      rows and columns that do not fill a block are dropped, and a zero
      block side is a division by zero. */
  function Bin(img: Image, rows: nat, cols: nat, b: nat): (r: Result<Image, BinError>)
    requires IsGrid(img, rows, cols)
    ensures r.Err? <==> b == 0
    ensures r.Ok? ==> IsGrid(r.value, rows / b, cols / b)
    ensures r.Ok? ==> forall i, j :: 0 <= i < rows / b && 0 <= j < cols / b ==>
      r.value[i][j] == BinMean(img, rows, cols, b, i, j)
  {
    if b == 0 then Err(ZeroBlockSize)
    else
      Ok(seq(rows / b, i requires 0 <= i < rows / b =>
           seq(cols / b, j requires 0 <= j < cols / b => BinMean(img, rows, cols, b, i, j))))
  }

  lemma Unscale(n: real, w: real, s: Vec3, v: Vec3)
    requires n > 0.0 && w * (n * n) == 1.0 && s == ScaleVec(n, ScaleVec(n, v))
    ensures ScaleVec(w, s) == v
  {
    assert w * (n * (n * v.v0)) == v.v0;
    assert w * (n * (n * v.v1)) == v.v1;
    assert w * (n * (n * v.v2)) == v.v2;
  }

  lemma BlockMeanConstant(img: Image, rows: nat, cols: nat, b: nat, r0: nat, c0: nat, v: Vec3)
    requires IsGrid(img, rows, cols) && b > 0 && r0 + b <= rows && c0 + b <= cols
    requires forall y, x :: r0 <= y < r0 + b && c0 <= x < c0 + b ==> img[y][x] == v
    ensures BlockMean(img, rows, cols, b, r0, c0) == v
  {
    var s := BlockSum(img, r0, c0, b, b);
    BlockSumConstant(img, r0, c0, b, b, v);
    Unscale(b as real, PerPixel(b), s, v);
  }

  /** Binning a uniform image gives the same uniform image, smaller. */
  lemma BinConstant(img: Image, rows: nat, cols: nat, b: nat, v: Vec3, i: nat, j: nat)
    requires IsGrid(img, rows, cols) && b > 0
    requires forall y, x :: 0 <= y < rows && 0 <= x < cols ==> img[y][x] == v
    requires i < rows / b && j < cols / b
    ensures Bin(img, rows, cols, b).value[i][j] == v
  {
    BinMeanIsBlockMean(img, rows, cols, b, i, j);
    BlockMeanConstant(img, rows, cols, b, b * i, b * j, v);
  }

  lemma BlockMeanAgree(img: Image, other: Image, rows: nat, cols: nat, b: nat, r0: nat, c0: nat)
    requires IsGrid(img, rows, cols) && IsGrid(other, rows, cols)
    requires b > 0 && r0 + b <= rows && c0 + b <= cols
    requires forall y, x :: r0 <= y < r0 + b && c0 <= x < c0 + b ==> img[y][x] == other[y][x]
    ensures BlockMean(img, rows, cols, b, r0, c0) == BlockMean(other, rows, cols, b, r0, c0)
  {
    BlockSumAgree(img, other, r0, c0, b, b);
  }

  /** The rows and columns dropped by `bin` have no influence on its result:
      two images that agree on the whole blocks bin to the same image. */
  lemma BinIgnoresRemainder(img: Image, other: Image, rows: nat, cols: nat, b: nat)
    requires IsGrid(img, rows, cols) && IsGrid(other, rows, cols) && b > 0
    requires forall y, x :: 0 <= y < rows / b * b && 0 <= x < cols / b * b ==> img[y][x] == other[y][x]
    ensures Bin(img, rows, cols, b) == Bin(other, rows, cols, b)
  {
    var p := Bin(img, rows, cols, b).value;
    var q := Bin(other, rows, cols, b).value;
    forall i, j | 0 <= i < rows / b && 0 <= j < cols / b
      ensures p[i][j] == q[i][j]
    {
      BinMeanIsBlockMean(img, rows, cols, b, i, j);
      BinMeanIsBlockMean(other, rows, cols, b, i, j);
      BlockInside(i, rows, b);
      BlockInside(j, cols, b);
      BlockMeanAgree(img, other, rows, cols, b, b * i, b * j);
    }
    forall i | 0 <= i < rows / b
      ensures p[i] == q[i]
    {
      assert |p[i]| == |q[i]| == cols / b;
    }
    assert |p| == |q| == rows / b;
    assert p == q;
  }

  lemma BlockMeanUnit(img: Image, rows: nat, cols: nat, r0: nat, c0: nat)
    requires IsGrid(img, rows, cols) && r0 < rows && c0 < cols
    ensures BlockMean(img, rows, cols, 1, r0, c0) == img[r0][c0]
  {
    assert PerPixel(1) == 1.0;
    assert BlockSum(img, r0, c0, 1, 1) == Add(Zero(), Add(Zero(), img[r0][c0]));
  }

  /** With a block side of one, `bin` returns the image unchanged. */
  lemma BinUnit(img: Image, rows: nat, cols: nat)
    requires IsGrid(img, rows, cols)
    ensures Bin(img, rows, cols, 1) == Ok(img)
  {
    var p := Bin(img, rows, cols, 1).value;
    forall i, j | 0 <= i < rows && 0 <= j < cols
      ensures p[i][j] == img[i][j]
    {
      assert 1 * i == i && 1 * j == j;
      BlockMeanUnit(img, rows, cols, i, j);
    }
    assert rows / 1 == rows && cols / 1 == cols;
    forall i | 0 <= i < rows
      ensures p[i] == img[i]
    {
      assert |p[i]| == |img[i]| == cols;
    }
    assert |p| == |img| == rows;
    assert p == img;
  }

  // ---- load_raw_image_and_bin ----

  function ToReal(px: Rgb<nat>): Vec3 {
    Vec3(px.r as real, px.g as real, px.b as real)
  }

  /** The integer plane-expanded array as floating point. */
  function ToReals(arr: seq<seq<Rgb<nat>>>, rows: nat, cols: nat): (img: Image)
    requires IsGrid(arr, rows, cols)
    ensures IsGrid(img, rows, cols)
    ensures forall y, x :: 0 <= y < rows && 0 <= x < cols ==> img[y][x] == ToReal(arr[y][x])
  {
    seq(rows, y requires 0 <= y < rows => seq(cols, x requires 0 <= x < cols => ToReal(arr[y][x])))
  }

  /** Red and blue fill a quarter of the sites and green half of them, so
      a block mean of the expanded planes is scaled by 4, 2 and 4 and then
      the sensor's black level of 64 is removed. */
  function Rebalance(px: Vec3): Vec3 {
    Vec3(4.0 * px.v0 - 64.0, 2.0 * px.v1 - 64.0, 4.0 * px.v2 - 64.0)
  }

  /** `load_raw_image_and_bin` once the raw image has been read and
      expanded into planes: means of `Downsampling`-sided blocks, rebalanced. */
  function LoadAndBin(arr: seq<seq<Rgb<nat>>>, rows: nat, cols: nat): (img: Image)
    requires IsGrid(arr, rows, cols)
    ensures IsGrid(img, rows / 16, cols / 16)
    ensures forall i, j :: 0 <= i < rows / 16 && 0 <= j < cols / 16 ==>
      img[i][j] == Rebalance(Bin(ToReals(arr, rows, cols), rows, cols, 16).value[i][j])
  {
    var binned := Bin(ToReals(arr, rows, cols), rows, cols, Downsampling).value;
    seq(rows / 16, i requires 0 <= i < rows / 16 =>
      seq(cols / 16, j requires 0 <= j < cols / 16 => Rebalance(binned[i][j])))
  }

  // Flat field: a uniform raw frame loads as the same level in every channel.

  /** One expanded pixel: `v` in plane `p`, zero in the other two. */
  function InPlane(p: nat, v: real): (px: Vec3)
    requires p < 3
    ensures px.At(p) == v
    ensures forall q :: 0 <= q < 3 && q != p ==> px.At(q) == 0.0
  {
    if p == 0 then Vec3(v, 0.0, 0.0) else if p == 1 then Vec3(0.0, v, 0.0) else Vec3(0.0, 0.0, v)
  }

  /** The expanded pixel of a uniform frame at a site of the given row and column parity. */
  function TilePixel(order: nat, a: nat, c: nat, v: real): Vec3
    requires order < 4
  {
    InPlane(Bayer.PlaneAt(order, a, c), v)
  }

  lemma PlanesOfOrder0()
    ensures Bayer.PlaneAt(0, 0, 0) == 0 && Bayer.PlaneAt(0, 0, 1) == 1 && Bayer.PlaneAt(0, 1, 0) == 1 && Bayer.PlaneAt(0, 1, 1) == 2
  {
    var offs := Bayer.BayerOffsets(0).value;
    assert offs == [Bayer.Site(0, 0), Bayer.Site(1, 0), Bayer.Site(0, 1), Bayer.Site(1, 1)];
  }

  lemma PlanesOfOrder1()
    ensures Bayer.PlaneAt(1, 0, 0) == 1 && Bayer.PlaneAt(1, 0, 1) == 2 && Bayer.PlaneAt(1, 1, 0) == 0 && Bayer.PlaneAt(1, 1, 1) == 1
  {
    var offs := Bayer.BayerOffsets(1).value;
    assert offs == [Bayer.Site(1, 0), Bayer.Site(0, 0), Bayer.Site(1, 1), Bayer.Site(0, 1)];
  }

  lemma PlanesOfOrder2()
    ensures Bayer.PlaneAt(2, 0, 0) == 2 && Bayer.PlaneAt(2, 0, 1) == 1 && Bayer.PlaneAt(2, 1, 0) == 1 && Bayer.PlaneAt(2, 1, 1) == 0
  {
    var offs := Bayer.BayerOffsets(2).value;
    assert offs == [Bayer.Site(1, 1), Bayer.Site(0, 1), Bayer.Site(1, 0), Bayer.Site(0, 0)];
  }

  lemma PlanesOfOrder3()
    ensures Bayer.PlaneAt(3, 0, 0) == 1 && Bayer.PlaneAt(3, 0, 1) == 0 && Bayer.PlaneAt(3, 1, 0) == 2 && Bayer.PlaneAt(3, 1, 1) == 1
  {
    var offs := Bayer.BayerOffsets(3).value;
    assert offs == [Bayer.Site(0, 1), Bayer.Site(1, 1), Bayer.Site(0, 0), Bayer.Site(1, 0)];
  }

  lemma AddTwoMore(m: real, p: Vec3, q: Vec3)
    ensures Add(Add(ScaleVec(m - 1.0, Add(p, q)), p), q) == ScaleVec(m, Add(p, q))
  {
  }

  /** A row alternating between `p` and `q` sums to `m` copies of `p + q`. */
  lemma {:induction false} RowSumAlternating(img: Image, y: nat, c0: nat, m: nat, p: Vec3, q: Vec3)
    requires y < |img| && c0 + 2 * m <= |img[y]|
    requires forall k :: 0 <= k < m ==> img[y][c0 + 2 * k] == p && img[y][c0 + 2 * k + 1] == q
    ensures RowSum(img, y, c0, 2 * m) == ScaleVec(m as real, Add(p, q))
  {
    if m > 0 {
      RowSumAlternating(img, y, c0, m - 1, p, q);
      assert img[y][c0 + 2 * (m - 1)] == p && img[y][c0 + 2 * (m - 1) + 1] == q;
      assert RowSum(img, y, c0, 2 * m) == Add(Add(RowSum(img, y, c0, 2 * (m - 1)), p), q);
      AddTwoMore(m as real, p, q);
    }
  }

  /** Rows alternating between sums `a` and `b` add up to `n` copies of `a + b`. */
  lemma {:induction false} BlockSumAlternating(img: Image, r0: nat, c0: nat, n: nat, cols: nat, a: Vec3, b: Vec3)
    requires Spans(img, r0, c0, 2 * n, cols)
    requires forall k :: 0 <= k < n ==>
      RowSum(img, r0 + 2 * k, c0, cols) == a && RowSum(img, r0 + 2 * k + 1, c0, cols) == b
    ensures BlockSum(img, r0, c0, 2 * n, cols) == ScaleVec(n as real, Add(a, b))
  {
    if n > 0 {
      BlockSumAlternating(img, r0, c0, n - 1, cols, a, b);
      assert RowSum(img, r0 + 2 * (n - 1), c0, cols) == a && RowSum(img, r0 + 2 * (n - 1) + 1, c0, cols) == b;
      assert BlockSum(img, r0, c0, 2 * n, cols) == Add(Add(BlockSum(img, r0, c0, 2 * (n - 1), cols), a), b);
      AddTwoMore(n as real, a, b);
    }
  }

  /** The four pixels of a 2 x 2 tile, by row and column parity. */
  datatype Tile = Tile(t00: Vec3, t01: Vec3, t10: Vec3, t11: Vec3) {
    function At(a: nat, c: nat): Vec3 {
      if a == 0 then (if c == 0 then t00 else t01) else (if c == 0 then t10 else t11)
    }

    /** The two pixels of tile row `a`, added. */
    function RowTotal(a: nat): Vec3 {
      Add(At(a, 0), At(a, 1))
    }
  }

  /** The tile of a uniform frame at level `w` expanded into planes. */
  function BayerTile(order: nat, w: real): Tile
    requires order < 4
  {
    Tile(TilePixel(order, 0, 0, w), TilePixel(order, 0, 1, w), TilePixel(order, 1, 0, w), TilePixel(order, 1, 1, w))
  }

  lemma TileSum0(v: real)
    ensures Add(BayerTile(0, v).RowTotal(0), BayerTile(0, v).RowTotal(1)) == Vec3(v, 2.0 * v, v)
  {
    PlanesOfOrder0();
  }

  lemma TileSum1(v: real)
    ensures Add(BayerTile(1, v).RowTotal(0), BayerTile(1, v).RowTotal(1)) == Vec3(v, 2.0 * v, v)
  {
    PlanesOfOrder1();
  }

  lemma TileSum2(v: real)
    ensures Add(BayerTile(2, v).RowTotal(0), BayerTile(2, v).RowTotal(1)) == Vec3(v, 2.0 * v, v)
  {
    PlanesOfOrder2();
  }

  lemma TileSum3(v: real)
    ensures Add(BayerTile(3, v).RowTotal(0), BayerTile(3, v).RowTotal(1)) == Vec3(v, 2.0 * v, v)
  {
    PlanesOfOrder3();
  }

  lemma BayerTileAt(order: nat, w: real, a: nat, c: nat)
    requires order < 4 && a < 2 && c < 2
    ensures BayerTile(order, w).At(a, c) == TilePixel(order, a, c, w)
  {
    var t := BayerTile(order, w);
    if a == 0 {
      assert c == 0 || c == 1;
    } else {
      assert a == 1 && (c == 0 || c == 1);
    }
  }

  /** Every 2 x 2 tile holds one red, two green and one blue site. */
  lemma TileSum(order: nat, v: real)
    requires order < 4
    ensures Add(BayerTile(order, v).RowTotal(0), BayerTile(order, v).RowTotal(1)) == Vec3(v, 2.0 * v, v)
  {
    if order == 0 {
      TileSum0(v);
    } else if order == 1 {
      TileSum1(v);
    } else if order == 2 {
      TileSum2(v);
    } else {
      TileSum3(v);
    }
  }

  /** `img` repeats the tile `t` over its whole extent. */
  predicate Tiled(img: Image, rows: nat, cols: nat, t: Tile) {
    IsGrid(img, rows, cols) &&
    forall y, x :: 0 <= y < rows && 0 <= x < cols ==> img[y][x] == t.At(y % 2, x % 2)
  }

  /** `arr` holds a raw frame at level `v` expanded into planes: every
      pixel carries `v` in the plane of its Bayer site and 0 in the others. */
  predicate ExpandedAt(arr: seq<seq<Rgb<nat>>>, rows: nat, cols: nat, order: nat, v: nat) {
    order < 4 && IsGrid(arr, rows, cols) &&
    forall y, x, p :: 0 <= y < rows && 0 <= x < cols && 0 <= p < 3 ==>
      arr[y][x].At(p) == if p == Bayer.PlaneAt(order, y, x) then v else 0
  }

  lemma ExpandedPixel(arr: seq<seq<Rgb<nat>>>, rows: nat, cols: nat, order: nat, v: nat, y: nat, x: nat)
    requires ExpandedAt(arr, rows, cols, order, v) && order < 4 && y < rows && x < cols
    ensures ToReal(arr[y][x]) == TilePixel(order, y % 2, x % 2, v as real)
  {
    var px: Rgb<nat> := arr[y][x];
    var plane := Bayer.PlaneAt(order, y, x);
    assert plane == Bayer.PlaneAt(order, y % 2, x % 2);
    assert px.At(0) == if 0 == plane then v else 0;
    assert px.At(1) == if 1 == plane then v else 0;
    assert px.At(2) == if 2 == plane then v else 0;
  }

  /** An expanded uniform frame repeats one Bayer tile. */
  lemma ExpandedFlat(arr: seq<seq<Rgb<nat>>>, rows: nat, cols: nat, order: nat, v: nat)
    requires ExpandedAt(arr, rows, cols, order, v) && order < 4
    ensures Tiled(ToReals(arr, rows, cols), rows, cols, BayerTile(order, v as real))
  {
    var img := ToReals(arr, rows, cols);
    var t := BayerTile(order, v as real);
    forall y, x | 0 <= y < rows && 0 <= x < cols
      ensures img[y][x] == t.At(y % 2, x % 2)
    {
      ExpandedPixel(arr, rows, cols, order, v, y, x);
      BayerTileAt(order, v as real, y % 2, x % 2);
    }
  }

  /** A row of `m` tile pairs of a tiled image, starting at an even column. */
  lemma TiledRow(img: Image, rows: nat, cols: nat, t: Tile, y: nat, c0: nat, m: nat, a: nat)
    requires Tiled(img, rows, cols, t)
    requires y < rows && c0 + 2 * m <= cols && c0 % 2 == 0 && y % 2 == a
    ensures RowSum(img, y, c0, 2 * m) == ScaleVec(m as real, t.RowTotal(a))
  {
    forall k | 0 <= k < m
      ensures img[y][c0 + 2 * k] == t.At(a, 0)
      ensures img[y][c0 + 2 * k + 1] == t.At(a, 1)
    {
      assert (c0 + 2 * k) % 2 == 0 && (c0 + 2 * k + 1) % 2 == 1;
    }
    RowSumAlternating(img, y, c0, m, t.At(a, 0), t.At(a, 1));
  }

  lemma TiledEvenRows(img: Image, rows: nat, cols: nat, t: Tile, r0: nat, c0: nat, n: nat, m: nat)
    requires Tiled(img, rows, cols, t)
    requires r0 + 2 * n <= rows && c0 + 2 * m <= cols && r0 % 2 == 0 && c0 % 2 == 0
    ensures forall k :: 0 <= k < n ==> RowSum(img, r0 + 2 * k, c0, 2 * m) == ScaleVec(m as real, t.RowTotal(0))
  {
    forall k | 0 <= k < n
      ensures RowSum(img, r0 + 2 * k, c0, 2 * m) == ScaleVec(m as real, t.RowTotal(0))
    {
      assert (r0 + 2 * k) % 2 == 0;
      TiledRow(img, rows, cols, t, r0 + 2 * k, c0, m, 0);
    }
  }

  lemma TiledOddRows(img: Image, rows: nat, cols: nat, t: Tile, r0: nat, c0: nat, n: nat, m: nat)
    requires Tiled(img, rows, cols, t)
    requires r0 + 2 * n <= rows && c0 + 2 * m <= cols && r0 % 2 == 0 && c0 % 2 == 0
    ensures forall k :: 0 <= k < n ==> RowSum(img, r0 + 2 * k + 1, c0, 2 * m) == ScaleVec(m as real, t.RowTotal(1))
  {
    forall k | 0 <= k < n
      ensures RowSum(img, r0 + 2 * k + 1, c0, 2 * m) == ScaleVec(m as real, t.RowTotal(1))
    {
      assert (r0 + 2 * k + 1) % 2 == 1;
      TiledRow(img, rows, cols, t, r0 + 2 * k + 1, c0, m, 1);
    }
  }

  /** The sum of a block of `n` x `m` tiles of a tiled image starting at
      even coordinates. */
  lemma TiledBlockSum(img: Image, rows: nat, cols: nat, t: Tile, r0: nat, c0: nat, n: nat, m: nat)
    requires Tiled(img, rows, cols, t)
    requires r0 + 2 * n <= rows && c0 + 2 * m <= cols && r0 % 2 == 0 && c0 % 2 == 0
    ensures BlockSum(img, r0, c0, 2 * n, 2 * m)
      == ScaleVec(n as real, Add(ScaleVec(m as real, t.RowTotal(0)), ScaleVec(m as real, t.RowTotal(1))))
  {
    TiledEvenRows(img, rows, cols, t, r0, c0, n, m);
    TiledOddRows(img, rows, cols, t, r0, c0, n, m);
    BlockSumAlternating(img, r0, c0, n, 2 * m, ScaleVec(m as real, t.RowTotal(0)), ScaleVec(m as real, t.RowTotal(1)));
  }

  lemma SixtyFour(t: Vec3, v: real)
    requires t == Vec3(v, 2.0 * v, v)
    ensures Rebalance(ScaleVec(PerPixel(16), ScaleVec(8.0, ScaleVec(8.0, t)))) == Vec3(v - 64.0, v - 64.0, v - 64.0)
  {
    assert PerPixel(16) * 256.0 == 1.0;
  }

  lemma ScaleAdd(s: real, a: Vec3, b: Vec3)
    ensures ScaleVec(s, Add(a, b)) == Add(ScaleVec(s, a), ScaleVec(s, b))
  {
  }

  /** A 16 x 16 block of a tiled image whose tile holds one red, two green
      and one blue site at level `w`, starting at even coordinates. */
  lemma TiledBlock(img: Image, rows: nat, cols: nat, t: Tile, w: real, r0: nat, c0: nat)
    requires Tiled(img, rows, cols, t) && Add(t.RowTotal(0), t.RowTotal(1)) == Vec3(w, 2.0 * w, w)
    requires r0 + 16 <= rows && c0 + 16 <= cols && r0 % 2 == 0 && c0 % 2 == 0
    ensures Rebalance(BlockMean(img, rows, cols, 16, r0, c0)) == Vec3(w - 64.0, w - 64.0, w - 64.0)
  {
    TiledBlockSum(img, rows, cols, t, r0, c0, 8, 8);
    ScaleAdd(8.0, t.RowTotal(0), t.RowTotal(1));
    SixtyFour(Add(t.RowTotal(0), t.RowTotal(1)), w);
  }

  /** Block `(i, j)` of a loaded image starts at an even row and column
      and lies inside the array. */
  lemma LoadedBlock(arr: seq<seq<Rgb<nat>>>, rows: nat, cols: nat, i: nat, j: nat)
    requires IsGrid(arr, rows, cols) && i < rows / 16 && j < cols / 16
    ensures 16 * i + 16 <= rows && 16 * j + 16 <= cols && (16 * i) % 2 == 0 && (16 * j) % 2 == 0
    ensures LoadAndBin(arr, rows, cols)[i][j] == Rebalance(BlockMean(ToReals(arr, rows, cols), rows, cols, 16, 16 * i, 16 * j))
  {
    var img := ToReals(arr, rows, cols);
    assert LoadAndBin(arr, rows, cols)[i][j] == Rebalance(Bin(img, rows, cols, 16).value[i][j]);
    assert Bin(img, rows, cols, 16).value[i][j] == BinMean(img, rows, cols, 16, i, j);
    BinMeanIsBlockMean(img, rows, cols, 16, i, j);
    EvenSixteen(i);
    EvenSixteen(j);
  }

  lemma EvenSixteen(i: nat)
    ensures (16 * i) % 2 == 0
  {
    var h := 8 * i;
    assert 16 * i == h + h;
    EvenDouble(h);
  }

  lemma EvenDouble(h: nat)
    ensures (h + h) % 2 == 0
  {
  }

  lemma TiledLoad(arr: seq<seq<Rgb<nat>>>, rows: nat, cols: nat, order: nat, w: real, i: nat, j: nat)
    requires IsGrid(arr, rows, cols) && order < 4
    requires Tiled(ToReals(arr, rows, cols), rows, cols, BayerTile(order, w))
    requires i < rows / 16 && j < cols / 16
    ensures LoadAndBin(arr, rows, cols)[i][j] == Vec3(w - 64.0, w - 64.0, w - 64.0)
  {
    TileSum(order, w);
    LoadedBlock(arr, rows, cols, i, j);
    TiledBlock(ToReals(arr, rows, cols), rows, cols, BayerTile(order, w), w, 16 * i, 16 * j);
  }

  /** Loading a raw frame at level `v` everywhere gives `v - 64` in all three
      channels of every block, whatever the Bayer order: this is what the
      4, 2, 4 weights are for. */
  lemma FlatFrameLoadsFlat(raw: seq<seq<nat>>, rows: nat, cols: nat, order: nat, v: nat, i: nat, j: nat)
    requires IsGrid(raw, rows, cols) && order < 4
    requires forall y, x :: 0 <= y < rows && 0 <= x < cols ==> raw[y][x] == v
    requires i < rows / 16 && j < cols / 16
    ensures LoadAndBin(Bayer.To3d(raw, rows, cols, order).value, rows, cols)[i][j]
      == Vec3(v as real - 64.0, v as real - 64.0, v as real - 64.0)
  {
    ExpandedLoadsFlat(Bayer.To3d(raw, rows, cols, order).value, rows, cols, order, v, i, j);
  }

  /** The same for any plane-expanded frame at level `v`. */
  lemma ExpandedLoadsFlat(arr: seq<seq<Rgb<nat>>>, rows: nat, cols: nat, order: nat, v: nat, i: nat, j: nat)
    requires ExpandedAt(arr, rows, cols, order, v) && order < 4
    requires i < rows / 16 && j < cols / 16
    ensures IsGrid(arr, rows, cols)
    ensures LoadAndBin(arr, rows, cols)[i][j] == Vec3(v as real - 64.0, v as real - 64.0, v as real - 64.0)
  {
    ExpandedFlat(arr, rows, cols, order, v);
    TiledLoad(arr, rows, cols, order, v as real, i, j);
  }


}
