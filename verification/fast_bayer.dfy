/** `PiFastBayerArray`: keeps the packed bytes and demosaics straight from
    them to a half-resolution 8-bit RGB image, one output pixel per 2x2
    tile, with `shift` choosing which 8 of the 10 bits (and the averaged
    green's extra bit) to keep. */
module FastBayer {
  import opened Results
  import opened Grids
  import opened Bits
  import Unpack10
  import RawGeometry
  import opened Bayer
  import BayerArrays

  /** One sample of `bayer_slices` for pixel p of a group, in `uint8`:
      the high byte shifted left by `shift`, plus the low bits that fit below
      it for shifts 1 to 3. Additions and shifts wrap at 256. */
  function FastSample(hi: Byte, lo: Byte, p: nat, shift: nat): (v: Byte)
    requires p < 4
    ensures shift <= 3 ==> v == (Shl(4 * hi + Unpack10.LowBits(lo, p), shift) / 4) % 256
    ensures shift >= 4 ==> v == Shl(hi, shift) % 256
  {
    var k := (3 - p) * 2;
    var a := Shl(hi, shift) % 256;
    if shift == 0 then
      SampleShift0(hi, lo, p);
      hi
    else if shift == 2 then
      SampleShift2(hi, lo, p);
      (a + BitAnd(Shr(lo, k), 3)) % 256
    else if shift == 1 then
      SampleShift1(hi, lo, p);
      (a + BitAnd(Shr(lo, k + 1), 1)) % 256
    else if shift == 3 then
      SampleShift3(hi, lo, p);
      (a + Shl(BitAnd(Shr(lo, k), 3), 1) % 256) % 256
    else a
  }

  /** The pair of low bits of pixel p sits at bit `(3 - p) * 2` of the fifth byte. */
  lemma LowBitsAt(lo: Byte, p: nat)
    requires p < 4
    ensures Shr(lo, (3 - p) * 2) == lo / Unpack10.LowWeight(p)
    ensures BitAnd(Shr(lo, (3 - p) * 2), 3) == Unpack10.LowBits(lo, p)
  {
    Unpack10.PowersOfTwo();
    assert Pow2((3 - p) * 2) == Unpack10.LowWeight(p) by {
      if p == 0 {} else if p == 1 {} else if p == 2 {} else {}
    }
    BitAndLowMask(lo / Unpack10.LowWeight(p), 2);
  }

  lemma SampleShift0(hi: Byte, lo: Byte, p: nat)
    requires p < 4
    ensures (Shl(4 * hi + Unpack10.LowBits(lo, p), 0) / 4) % 256 == hi
  {
    var v := 4 * hi + Unpack10.LowBits(lo, p);
    assert Shl(v, 0) == v;
    DivModUnique(v, 4, hi, Unpack10.LowBits(lo, p));
    DivModUnique(hi, 256, 0, hi);
  }

  lemma SampleShift2(hi: Byte, lo: Byte, p: nat)
    requires p < 4
    ensures (Shl(hi, 2) % 256 + BitAnd(Shr(lo, (3 - p) * 2), 3)) % 256 == (Shl(4 * hi + Unpack10.LowBits(lo, p), 2) / 4) % 256
  {
    Unpack10.PowersOfTwo();
    LowBitsAt(lo, p);
    var low := Unpack10.LowBits(lo, p);
    var v := 4 * hi + low;
    DivModUnique(4 * v, 4, v, 0);
    ModAdd(4 * hi, low);
  }

  lemma SampleShift1(hi: Byte, lo: Byte, p: nat)
    requires p < 4
    ensures (Shl(hi, 1) % 256 + BitAnd(Shr(lo, (3 - p) * 2 + 1), 1)) % 256 == (Shl(4 * hi + Unpack10.LowBits(lo, p), 1) / 4) % 256
  {
    Unpack10.PowersOfTwo();
    LowBitsAt(lo, p);
    var x := lo / Unpack10.LowWeight(p);
    var low := Unpack10.LowBits(lo, p);
    assert Pow2((3 - p) * 2 + 1) == 2 * Unpack10.LowWeight(p) by {
      if p == 0 {} else if p == 1 {} else if p == 2 {} else {}
    }
    DivDiv(lo, Unpack10.LowWeight(p), 2);
    BitAndLowMask(x / 2, 1);
    HighBitOfPair(x);
    var v := 4 * hi + low;
    DivModUnique(2 * v, 4, 2 * hi + low / 2, 2 * (low % 2));
    ModAdd(2 * hi, low / 2);
  }

  lemma SampleShift3(hi: Byte, lo: Byte, p: nat)
    requires p < 4
    ensures (Shl(hi, 3) % 256 + Shl(BitAnd(Shr(lo, (3 - p) * 2), 3), 1) % 256) % 256 == (Shl(4 * hi + Unpack10.LowBits(lo, p), 3) / 4) % 256
  {
    Unpack10.PowersOfTwo();
    LowBitsAt(lo, p);
    var low := Unpack10.LowBits(lo, p);
    var v := 4 * hi + low;
    DivModUnique(8 * v, 4, 2 * v, 0);
    DivModUnique(2 * low, 256, 0, 2 * low);
    ModAdd(8 * hi, 2 * low);
  }

  /** Adding a small value after truncating to a byte is truncating the sum. */
  lemma ModAdd(a: nat, b: nat)
    ensures (a % 256 + b) % 256 == (a + b) % 256
  {
    DivModUnique(a + b, 256, a / 256 + (a % 256 + b) / 256, (a % 256 + b) % 256);
  }

  lemma DivDiv(x: nat, w: nat, d: nat)
    requires w >= 1 && d >= 1
    ensures x / (w * d) == (x / w) / d
  {
    var q := (x / w) / d;
    var r := (x / w) % d;
    assert x / w == d * q + r;
    assert x == w * (d * q + r) + x % w;
    assert x == (w * d) * q + (w * r + x % w);
    assert w * r + x % w < w * d by {
      MulLeft(w, r, d - 1);
    }
    DivModUnique(x, w * d, q, w * r + x % w);
  }

  lemma HighBitOfPair(x: nat)
    ensures (x / 2) % 2 == (x % 4) / 2
  {
    var q := x / 4;
    var r := x % 4;
    DivModUnique(x, 2, 2 * q + r / 2, r % 2);
    DivModUnique(2 * q + r / 2, 2, q, r / 2);
  }

  /** `green = G1 // 2 + G2 // 2` in `uint8`: the sum of two halves never wraps. */
  function GreenAverage(g1: Byte, g2: Byte): (g: Byte)
    ensures g == g1 / 2 + g2 / 2 && g <= 254
  {
    DivModUnique(g1 / 2 + g2 / 2, 256, 0, g1 / 2 + g2 / 2);
    (g1 / 2 + g2 / 2) % 256
  }

  // ---- slice shapes and broadcasting ----

  /** Length of the slice `k::5` of a row of `cols` bytes: the number of
      columns x < cols with x % 5 == k. */
  function SliceLength(cols: nat, k: nat): (n: nat)
    requires k < 5
    ensures cols <= 5 * n + k && (n == 0 || 5 * (n - 1) + k < cols)
  {
    if cols > k then (cols - k + 4) / 5 else 0
  }

  /** The slice lengths of a row of 5q + m bytes: one more than q for the
      first m positions of a group. */
  lemma SliceLengthSplit(cols: nat, k: nat)
    requires k < 5
    ensures SliceLength(cols, k) == cols / 5 + (if cols % 5 > k then 1 else 0)
  {
    var q, m := cols / 5, cols % 5;
    if cols > k {
      if m > k {
        DivModUnique(cols - k + 4, 5, q + 1, m - k - 1);
      } else {
        DivModUnique(cols - k + 4, 5, q, m - k + 4);
      }
    }
  }

  /** numpy broadcasts an axis of length `src` onto one of length `dst`
      exactly when they are equal or the source has length 1 (also onto 0). */
  predicate Fits(src: nat, dst: nat) {
    src == dst || src == 1
  }

  /** The source index a broadcast reads for target index x. */
  function Pick(src: nat, x: nat): (y: nat)
    ensures Fits(src, src) && (x < src ==> y == x) && (src == 1 ==> y == 0)
  {
    if src == 1 then 0 else x
  }

  /** When `demosaic(shift)` runs without a broadcasting error. The image is
      `rows // 2` by twice the length of the `0::5` slice; slices `i::2` with
      i = 0 have `(rows + 1) // 2` rows, the b-slices are `2::5` and `3::5`, the
      second green and blue a-slices `1::5`, and for shifts 1 to 3 the `4::5`
      slice of low bits is added to every a- and b-slice in place. */
  predicate FastShapeOk(rows: nat, cols: nat, shift: nat) {
    var n0 := SliceLength(cols, 0);
    var n4 := SliceLength(cols, 4);
    Fits((rows + 1) / 2, rows / 2) &&
    Fits(SliceLength(cols, 1), n0) && Fits(SliceLength(cols, 2), n0) && Fits(SliceLength(cols, 3), n0) &&
    (1 <= shift <= 3 ==>
      Fits(n4, n0) && Fits(n4, SliceLength(cols, 1)) && Fits(n4, SliceLength(cols, 2)) && Fits(n4, SliceLength(cols, 3)))
  }

  /** The shapes the fast demosaic accepts: an even number of rows (or a
      single row, which broadcasts onto an empty image), and whole 5-byte
      groups, or rows of 6 to 8 bytes whose one-column slices broadcast, or,
      when no low bits are added, any row ending in a 4-byte partial group;
      with low bits a 9-byte row also broadcasts. */
  lemma FastAcceptedShapes(rows: nat, cols: nat, shift: nat)
    ensures FastShapeOk(rows, cols, shift) <==>
      (rows % 2 == 0 || rows == 1) &&
      (if 1 <= shift <= 3 then cols % 5 == 0 || 6 <= cols <= 9
       else cols % 5 == 0 || cols % 5 == 4 || 6 <= cols <= 8)
  {
    SliceLengthSplit(cols, 0);
    SliceLengthSplit(cols, 1);
    SliceLengthSplit(cols, 2);
    SliceLengthSplit(cols, 3);
    SliceLengthSplit(cols, 4);
    assert cols == 5 * (cols / 5) + cols % 5;
  }

  /** Whole 5-byte groups: every slice has `cols / 5` columns. */
  lemma WholeGroupSlices(cols: nat, k: nat)
    requires cols % 5 == 0 && k < 5
    ensures SliceLength(cols, k) == cols / 5
  {
    SliceLengthSplit(cols, k);
  }

  /** `bayer_slices(i, j)` at output column c: the a-slice (`j::5`) for even
      columns and the b-slice (`j+2::5`) for odd ones, on byte row `2r + i`,
      each read through broadcasting; for shifts 1 to 3 the low bits come from
      the `4::5` slice, broadcast onto that slice. */
  function Slice(bytes: seq<seq<Byte>>, rows: nat, cols: nat, i: nat, j: nat, r: nat, c: nat, shift: nat): Byte
    requires IsGrid(bytes, rows, cols) && FastShapeOk(rows, cols, shift) && i < 2 && j < 2
    requires r < rows / 2 && c < 2 * SliceLength(cols, 0)
  {
    var p := j + 2 * (c % 2);
    var g := Pick(SliceLength(cols, p), c / 2);
    var lo := if 1 <= shift <= 3 then bytes[2 * r + i][5 * Pick(SliceLength(cols, 4), g) + 4] else 0;
    FastSample(bytes[2 * r + i][5 * g + p], lo, p, shift)
  }

  /** One output pixel: red from slices (1, 0), blue from (0, 1), green the
      halves of (0, 0) and (1, 1) added. */
  function FastPixel(bytes: seq<seq<Byte>>, rows: nat, cols: nat, r: nat, c: nat, shift: nat): Rgb<Byte>
    requires IsGrid(bytes, rows, cols) && FastShapeOk(rows, cols, shift)
    requires r < rows / 2 && c < 2 * SliceLength(cols, 0)
  {
    Rgb(Slice(bytes, rows, cols, 1, 0, r, c, shift),
        GreenAverage(Slice(bytes, rows, cols, 0, 0, r, c, shift), Slice(bytes, rows, cols, 1, 1, r, c, shift)),
        Slice(bytes, rows, cols, 0, 1, r, c, shift))
  }

  /** `PiFastBayerArray.demosaic` on the packed bytes: numpy assigns each
      slice into a preallocated `rows // 2` by `2 * ceil(cols / 5)` array, and
      a slice that does not broadcast onto its target raises. */
  function FastDemosaicFrame(bytes: seq<seq<Byte>>, rows: nat, cols: nat, shift: nat)
    : (r: Result<seq<seq<Rgb<Byte>>>, BayerError>)
    requires IsGrid(bytes, rows, cols)
    ensures r.Ok? <==>
      (rows % 2 == 0 || rows == 1) &&
      (if 1 <= shift <= 3 then cols % 5 == 0 || 6 <= cols <= 9
       else cols % 5 == 0 || cols % 5 == 4 || 6 <= cols <= 8)
    ensures r.Ok? ==> IsGrid(r.value, rows / 2, (cols + 4) / 5 * 2)
  {
    FastAcceptedShapes(rows, cols, shift);
    if !FastShapeOk(rows, cols, shift) then Err(ShapeMismatch)
    else
      var w := 2 * SliceLength(cols, 0);
      Ok(seq(rows / 2, r requires 0 <= r < rows / 2 =>
           seq(w, c requires 0 <= c < w => FastPixel(bytes, rows, cols, r, c, shift))))
  }

  /** For a row whose trailing partial group is shorter than 4 bytes, which
      is every row a flush produces, the accepted shapes do not depend on the
      shift. */
  lemma FastShapeIgnoresShift(rows: nat, cols: nat, s: nat, t: nat)
    requires cols % 5 != 4
    ensures FastShapeOk(rows, cols, s) == FastShapeOk(rows, cols, t)
  {
    FastAcceptedShapes(rows, cols, s);
    FastAcceptedShapes(rows, cols, t);
  }

  /** The 8 bits of a 10-bit value that `shift` selects, for shifts up to 3:
      the value scaled by `2^shift / 4` and truncated to a byte. */
  function EightBits(v: nat, shift: nat): nat {
    (Shl(v, shift) / 4) % 256
  }

  /** The fast demosaic agrees with the full decoder: for shifts up to 3,
      red is the selected 8 bits of raw pixel (2r+1, 2c), blue of (2r, 2c+1),
      and green the sum of the halves of (2r, 2c) and (2r+1, 2c+1). */
  lemma FastAgreesWithDataToArray(bytes: seq<seq<Byte>>, rows: nat, cols: nat, shift: nat, r: nat, c: nat)
    requires IsGrid(bytes, rows, cols) && rows % 2 == 0 && cols % 5 == 0 && shift <= 3
    requires r < rows / 2 && c < cols / 5 * 2
    ensures (cols + 4) / 5 == cols / 5
    ensures var raw := Unpack10.DataToArray(bytes, rows, cols).value;
      var px := FastDemosaicFrame(bytes, rows, cols, shift).value[r][c];
      2 * c + 1 < cols * 4 / 5 &&
      px.r == EightBits(raw[2 * r + 1][2 * c], shift) &&
      px.b == EightBits(raw[2 * r][2 * c + 1], shift) &&
      px.g == EightBits(raw[2 * r][2 * c], shift) / 2 + EightBits(raw[2 * r + 1][2 * c + 1], shift) / 2
  {
    assert WholeFrame(bytes, rows, cols, r, c);
    FastRed(bytes, rows, cols, shift, r, c);
    FastBlue(bytes, rows, cols, shift, r, c);
    FastGreen(bytes, rows, cols, shift, r, c);
  }

  /** Whole 5-byte groups on an even number of rows: every slice has
      `cols / 5` columns and every shape is accepted. */
  lemma WholeGroups(rows: nat, cols: nat, shift: nat)
    requires rows % 2 == 0 && cols % 5 == 0
    ensures FastShapeOk(rows, cols, shift) && (cols + 4) / 5 == cols / 5
    ensures SliceLength(cols, 0) == SliceLength(cols, 1) == SliceLength(cols, 2) == cols / 5
    ensures SliceLength(cols, 3) == SliceLength(cols, 4) == cols / 5
  {
    WholeGroupSlices(cols, 0);
    WholeGroupSlices(cols, 1);
    WholeGroupSlices(cols, 2);
    WholeGroupSlices(cols, 3);
    WholeGroupSlices(cols, 4);
  }

  /** Output pixel (r, c) of a frame of whole 5-byte groups on an even
      number of rows. */
  predicate WholeFrame(bytes: seq<seq<Byte>>, rows: nat, cols: nat, r: nat, c: nat) {
    IsGrid(bytes, rows, cols) && rows % 2 == 0 && cols % 5 == 0 && r < rows / 2 && c < cols / 5 * 2
  }

  /** On whole groups no slice broadcasts: slice (i, j) at output column c
      reads byte `5 * (c / 2) + p` of row `2r + i`, and for shifts 1 to 3 its
      low bits from byte 4 of the same group. */
  function GroupSample(bytes: seq<seq<Byte>>, rows: nat, cols: nat, i: nat, j: nat, r: nat, c: nat, shift: nat): Byte
    requires WholeFrame(bytes, rows, cols, r, c) && i < 2 && j < 2
  {
    var g, p := c / 2, j + 2 * (c % 2);
    assert 5 * g + 4 < cols by { GroupInRow(cols, c); }
    var row := bytes[2 * r + i];
    FastSample(row[5 * g + p], if 1 <= shift <= 3 then row[5 * g + 4] else 0, p, shift)
  }

  lemma GroupInRow(cols: nat, c: nat)
    requires cols % 5 == 0 && c < cols / 5 * 2
    ensures 5 * (c / 2) + 4 < cols && 2 * c + 1 < cols * 4 / 5
  {
    var q := cols / 5;
    assert cols == 5 * q;
    assert c / 2 < q;
    DivModUnique(cols * 4, 5, 4 * q, 0);
  }

  /** Red is the single sample of slice (1, 0). */
  lemma FastRed(bytes: seq<seq<Byte>>, rows: nat, cols: nat, shift: nat, r: nat, c: nat)
    requires WholeFrame(bytes, rows, cols, r, c) && shift <= 3
    ensures (cols + 4) / 5 == cols / 5
    ensures var raw := Unpack10.DataToArray(bytes, rows, cols).value;
      2 * c < cols * 4 / 5 &&
      FastDemosaicFrame(bytes, rows, cols, shift).value[r][c].r == EightBits(raw[2 * r + 1][2 * c], shift)
  {
    FrameAt(bytes, rows, cols, shift, r, c);
    SampleAgrees(bytes, rows, cols, 1, 0, r, c, shift, 2 * r + 1, 2 * c);
  }

  /** Blue is the single sample of slice (0, 1). */
  lemma FastBlue(bytes: seq<seq<Byte>>, rows: nat, cols: nat, shift: nat, r: nat, c: nat)
    requires WholeFrame(bytes, rows, cols, r, c) && shift <= 3
    ensures (cols + 4) / 5 == cols / 5
    ensures var raw := Unpack10.DataToArray(bytes, rows, cols).value;
      2 * c + 1 < cols * 4 / 5 &&
      FastDemosaicFrame(bytes, rows, cols, shift).value[r][c].b == EightBits(raw[2 * r][2 * c + 1], shift)
  {
    FrameAt(bytes, rows, cols, shift, r, c);
    SampleAgrees(bytes, rows, cols, 0, 1, r, c, shift, 2 * r, 2 * c + 1);
  }

  /** Green is the halves of the two diagonal samples added. */
  lemma FastGreen(bytes: seq<seq<Byte>>, rows: nat, cols: nat, shift: nat, r: nat, c: nat)
    requires WholeFrame(bytes, rows, cols, r, c) && shift <= 3
    ensures (cols + 4) / 5 == cols / 5
    ensures var raw := Unpack10.DataToArray(bytes, rows, cols).value;
      2 * c + 1 < cols * 4 / 5 &&
      FastDemosaicFrame(bytes, rows, cols, shift).value[r][c].g
        == EightBits(raw[2 * r][2 * c], shift) / 2 + EightBits(raw[2 * r + 1][2 * c + 1], shift) / 2
  {
    FrameAt(bytes, rows, cols, shift, r, c);
    SampleAgrees(bytes, rows, cols, 0, 0, r, c, shift, 2 * r, 2 * c);
    SampleAgrees(bytes, rows, cols, 1, 1, r, c, shift, 2 * r + 1, 2 * c + 1);
  }

  /** Output pixel (r, c) of whole groups is red from slice (1, 0), blue from
      (0, 1), and green from the halves of (0, 0) and (1, 1). */
  lemma FrameAt(bytes: seq<seq<Byte>>, rows: nat, cols: nat, shift: nat, r: nat, c: nat)
    requires WholeFrame(bytes, rows, cols, r, c)
    ensures (cols + 4) / 5 == cols / 5 && FastDemosaicFrame(bytes, rows, cols, shift).Ok?
    ensures var px := FastDemosaicFrame(bytes, rows, cols, shift).value[r][c];
      px.r == GroupSample(bytes, rows, cols, 1, 0, r, c, shift) &&
      px.b == GroupSample(bytes, rows, cols, 0, 1, r, c, shift) &&
      px.g == GroupSample(bytes, rows, cols, 0, 0, r, c, shift) / 2 + GroupSample(bytes, rows, cols, 1, 1, r, c, shift) / 2
  {
    WholeGroups(rows, cols, shift);
    assert FastDemosaicFrame(bytes, rows, cols, shift).value[r][c] == FastPixel(bytes, rows, cols, r, c, shift);
    SliceInWholeGroups(bytes, rows, cols, 1, 0, r, c, shift);
    SliceInWholeGroups(bytes, rows, cols, 0, 1, r, c, shift);
    SliceInWholeGroups(bytes, rows, cols, 0, 0, r, c, shift);
    SliceInWholeGroups(bytes, rows, cols, 1, 1, r, c, shift);
  }

  /** On whole groups slice (i, j) is the group sample. */
  lemma SliceInWholeGroups(bytes: seq<seq<Byte>>, rows: nat, cols: nat, i: nat, j: nat, r: nat, c: nat, shift: nat)
    requires WholeFrame(bytes, rows, cols, r, c) && i < 2 && j < 2
    requires FastShapeOk(rows, cols, shift) && c < 2 * SliceLength(cols, 0)
    ensures Slice(bytes, rows, cols, i, j, r, c, shift) == GroupSample(bytes, rows, cols, i, j, r, c, shift)
  {
    WholeGroups(rows, cols, shift);
  }

  /** The group sample (i, j) at output (r, c) is the selected 8 bits of raw
      pixel (2r + i, 2c + j). */
  lemma SampleAgrees(bytes: seq<seq<Byte>>, rows: nat, cols: nat, i: nat, j: nat, r: nat, c: nat, shift: nat, y: nat, x: nat)
    requires WholeFrame(bytes, rows, cols, r, c) && shift <= 3 && i < 2 && j < 2
    requires y == 2 * r + i && x == 2 * c + j
    ensures var raw := Unpack10.DataToArray(bytes, rows, cols).value;
      y < rows && x < cols * 4 / 5 &&
      GroupSample(bytes, rows, cols, i, j, r, c, shift) == EightBits(raw[y][x], shift)
  {
    var g, p := c / 2, j + 2 * (c % 2);
    GroupColumn(cols, c, j, g, p);
    GroupSamplePixel(bytes, rows, cols, i, j, r, c, shift, g, p, y);
    RawPixel(bytes, rows, cols, y, g, p, x);
  }

  /** The group sample is the selected 8 bits of the 10-bit value its byte
      and low bits encode. */
  lemma GroupSamplePixel(bytes: seq<seq<Byte>>, rows: nat, cols: nat, i: nat, j: nat, r: nat, c: nat, shift: nat, g: nat, p: nat, y: nat)
    requires WholeFrame(bytes, rows, cols, r, c) && shift <= 3 && i < 2 && j < 2
    requires g == c / 2 && p == j + 2 * (c % 2) && 5 * g + 4 < cols && y == 2 * r + i
    ensures p < 4 && y < rows
    ensures var row := bytes[y];
      GroupSample(bytes, rows, cols, i, j, r, c, shift) == EightBits(4 * row[5 * g + p] + Unpack10.LowBits(row[5 * g + 4], p), shift)
  {
    var row := bytes[2 * r + i];
    SampleIsEightBits(row[5 * g + p], row[5 * g + 4], p, shift);
  }

  /** Output column c of slice column j lies in group `c / 2` at position p. */
  lemma GroupColumn(cols: nat, c: nat, j: nat, g: nat, p: nat)
    requires cols % 5 == 0 && c < cols / 5 * 2 && j < 2 && g == c / 2 && p == j + 2 * (c % 2)
    ensures 2 * c + j == 4 * g + p && p < 4 && g < cols / 5
  {
  }

  /** A fast sample is the selected 8 bits of the pixel its two bytes encode;
      at shift 0 the low-bit byte is not read. */
  lemma SampleIsEightBits(hi: Byte, lo: Byte, p: nat, shift: nat)
    requires p < 4 && shift <= 3
    ensures FastSample(hi, if 1 <= shift <= 3 then lo else 0, p, shift) == EightBits(4 * hi + Unpack10.LowBits(lo, p), shift)
  {
    if shift == 0 {
      SampleShift0(hi, lo, p);
      SampleShift0(hi, 0, p);
    }
  }

  lemma RawPixel(bytes: seq<seq<Byte>>, rows: nat, cols: nat, y: nat, g: nat, p: nat, x: nat)
    requires IsGrid(bytes, rows, cols) && cols % 5 == 0 && y < rows && g < cols / 5 && p < 4 && x == 4 * g + p
    ensures var raw := Unpack10.DataToArray(bytes, rows, cols).value;
      x < cols * 4 / 5 && 5 * g + 4 < cols &&
      raw[y][x] == 4 * bytes[y][5 * g + p] + Unpack10.LowBits(bytes[y][5 * g + 4], p)
  {
    var raw := Unpack10.DataToArray(bytes, rows, cols).value;
    assert Unpack10.Decodes(raw[y], bytes[y]);
    assert Unpack10.GroupPixel(raw[y], g, p) == raw[y][4 * g + p];
  }

  /** The fixed tile layout of the fast demosaic is Bayer order 1: red at
      (odd row, even column), blue at (even row, odd column), greens on the
      diagonal. */
  lemma FastLayoutIsOrder1(r: nat, c: nat)
    ensures PlaneAt(1, 2 * r + 1, 2 * c) == 0 && PlaneAt(1, 2 * r, 2 * c + 1) == 2
    ensures PlaneAt(1, 2 * r, 2 * c) == 1 && PlaneAt(1, 2 * r + 1, 2 * c + 1) == 1
  {
    OffsetsPermutation(1);
    var offs := BayerOffsets(1).value;
    assert SiteIndex(offs, Site(1, 0)) == 0;
    assert SiteIndex(offs, Site(0, 1)) == 3;
    assert SiteIndex(offs, Site(0, 0)) == 1;
    assert SiteIndex(offs, Site(1, 1)) == 2;
  }

  // ---- the PiFastBayerArray object ----

  datatype PiFastBayerArray = PiFastBayerArray(
    header: Option<RawGeometry.RawHeader>,
    flushed: bool,
    rows: nat,
    cols: nat,
    bytes: seq<seq<Byte>>,
    demo: Option<seq<seq<Rgb<Byte>>>>,
    demoShift: nat)

  /** What construction and `flush` guarantee: a flushed array holds a byte
      grid cropped to `width * 5 // 4` columns, which never ends in a 4-byte
      partial group. */
  predicate Valid(a: PiFastBayerArray) {
    a.flushed ==> a.header.Some? && IsGrid(a.bytes, a.rows, a.cols) && a.cols % 5 != 4
  }

  /** Construction checks `output_dims` as for `PiBayerArray`, though the
      fast array never expands planes. */
  function New(outputDims: nat): (r: Result<PiFastBayerArray, BayerError>)
    ensures r.Ok? <==> 2 <= outputDims <= 3
    ensures r.Ok? ==> Valid(r.value) && r.value.header.None? && !r.value.flushed && r.value.demo.None?
  {
    if !(2 <= outputDims <= 3) then Err(BadOutputDims)
    else Ok(PiFastBayerArray(None, false, 0, 0, [], None, 0))
  }

  /** `flush` with the fast `data_to_array`, which keeps the cropped bytes as
      they are and cannot fail. The returned object is the state after the
      call, whether or not it raised: the cache is dropped first, the header
      replaced once its bytes are found, and the bytes only on success. */
  function Flush(a: PiFastBayerArray, buffer: seq<Byte>, revision: string, mode: int, header: RawGeometry.RawHeader)
    : (r: (PiFastBayerArray, Result<(), BayerError>))
    requires Valid(a)
    ensures Valid(r.0) && r.0.demo.None?
    ensures r.0.header == if BayerArrays.HeaderReached(buffer, revision, mode) then Some(header) else a.header
    ensures r.1.Ok? <==> BayerArrays.LocateRaw(buffer, revision, mode, header).Ok?
    ensures r.1.Ok? ==> (r.0.flushed && r.0.bytes == BayerArrays.LocateRaw(buffer, revision, mode, header).value.bytes &&
      r.0.rows == RawGeometry.CropShape(header).height && r.0.cols == RawGeometry.CropShape(header).width)
    ensures r.1.Err? ==> (r.0.flushed == a.flushed && r.0.bytes == a.bytes && r.0.rows == a.rows && r.0.cols == a.cols)
  {
    var seen := a.(demo := None,
                   header := if BayerArrays.HeaderReached(buffer, revision, mode) then Some(header) else a.header);
    match BayerArrays.LocateRaw(buffer, revision, mode, header)
    case Err(e) => (seen, Err(e))
    case Ok(cap) =>
      RawGeometry.CropWidthResidue(header);
      (seen.(flushed := true, rows := cap.rows, cols := cap.cols, bytes := cap.bytes), Ok(()))
  }

  /** `PiFastBayerArray.demosaic(shift)`: recompute unless a result for the
      same shift is cached. The requested shift is recorded before the
      computation, so it is kept even when the computation fails. */
  function Demosaic(a: PiFastBayerArray, shift: nat): (r: (PiFastBayerArray, Result<seq<seq<Rgb<Byte>>>, BayerError>))
    requires Valid(a)
    ensures Valid(r.0) && r.0.bytes == a.bytes && r.0.demoShift == shift
    ensures r.1.Ok? ==> r.0.demo == Some(r.1.value)
  {
    if a.demo.Some? && a.demoShift == shift then (a, Ok(a.demo.value))
    else
      var b := a.(demoShift := shift);
      if !a.flushed then (b, Err(NotFlushed))
      else match FastDemosaicFrame(a.bytes, a.rows, a.cols, shift)
        case Err(e) => (b, Err(e))
        case Ok(out) => (b.(demo := Some(out)), Ok(out))
  }

  /** The fast demosaic computed from scratch. */
  function FreshDemosaic(a: PiFastBayerArray, shift: nat): (r: Result<seq<seq<Rgb<Byte>>>, BayerError>)
    requires Valid(a)
  {
    if !a.flushed then Err(NotFlushed) else FastDemosaicFrame(a.bytes, a.rows, a.cols, shift)
  }

  /** The cache holds the result for the recorded shift, if anything. */
  predicate Coherent(a: PiFastBayerArray)
    requires Valid(a)
  {
    a.demo.Some? ==> FreshDemosaic(a, a.demoShift) == Ok(a.demo.value)
  }

  /** Caching is invisible: a changed shift forces recomputation, the same
      shift returns the cached value, and both equal the fresh demosaic; the
      cache stays coherent, including after a failed call. */
  lemma DemosaicCacheTransparent(a: PiFastBayerArray, shift: nat)
    requires Valid(a) && Coherent(a)
    ensures Demosaic(a, shift).1 == FreshDemosaic(a, shift)
    ensures Coherent(Demosaic(a, shift).0)
  {
    if a.demo.Some? && a.demoShift != shift {
      // A cached result proves the shape is accepted, and on a flushed
      // array acceptance does not depend on the shift.
      assert FreshDemosaic(a, a.demoShift).Ok?;
      FastShapeIgnoresShift(a.rows, a.cols, a.demoShift, shift);
    }
  }

  /** A flush, failed or not, leaves no stale cache. */
  lemma FlushCoherent(a: PiFastBayerArray, buffer: seq<Byte>, revision: string, mode: int, header: RawGeometry.RawHeader)
    requires Valid(a)
    ensures Coherent(Flush(a, buffer, revision, mode, header).0)
  {
  }
}
