/** The lens-shading table builder: split a plane-expanded white frame into
    its four Bayer phase channels, then turn each channel into a table of
    8-bit gains (32 is unity) with one cell per 32x32 block of channel pixels.
    The numeric part is over exact reals. */
module Shading {
  import opened Results
  import opened Grids
  import Bayer

  datatype ShadingError =
    | ShapeMismatch   // numpy cannot broadcast a phase slice into its channel
    | EmptyChannel    // `np.pad(mode="edge")` cannot extend an empty axis
    | FlatChannel     // the channel's largest cell is 0, so normalising divides by zero

  /** The black level of the 10-bit sensor. */
  const BlackLevel: nat := 64

  /** Storing an integer into a `uint16` array keeps it modulo 2^16. */
  function Wrap16(x: int): (w: nat)
    ensures w < 65536
    ensures 0 <= x < 65536 ==> w == x
    ensures -65536 <= x < 0 ==> w == x + 65536
  {
    x % 65536
  }

  // ---- channels_from_bayer_array ----

  /** A dimension numpy can split into its even and odd phases of size n // 2:
      the phase slices have n // 2 entries, or a single one that broadcasts. */
  predicate Halvable(n: nat) {
    n % 2 == 0 || n == 1
  }

  /** The sum over the colour axis, stored back into the input's `uint16`. */
  function PlaneSum(px: Rgb<nat>): (s: nat)
    ensures s < 65536
    ensures px.r + px.g + px.b < 65536 ==> s == px.r + px.g + px.b
  {
    Wrap16(px.r + px.g + px.b)
  }

  /** `channels_from_bayer_array`: channel i collects the pixels at tile
      offset (i // 2, i % 2), each summed over its three colour planes. */
  function ChannelsFromBayer(a: seq<seq<Rgb<nat>>>, h: nat, w: nat): (r: Result<seq<seq<seq<nat>>>, ShadingError>)
    requires IsGrid(a, h, w)
    ensures r.Ok? <==> Halvable(h) && Halvable(w)
    ensures r.Ok? ==> |r.value| == 4 && forall i :: 0 <= i < 4 ==> r.value[i] == Channel(a, h, w, i)
  {
    if !Halvable(h) || !Halvable(w) then Err(ShapeMismatch)
    else Ok(seq(4, i requires 0 <= i < 4 => Channel(a, h, w, i)))
  }

  /** Channel i of the split: `np.sum(a[i // 2::2, i % 2::2, :], axis=2)`. */
  function Channel(a: seq<seq<Rgb<nat>>>, h: nat, w: nat, i: nat): (c: seq<seq<nat>>)
    requires IsGrid(a, h, w) && i < 4
    ensures IsGrid(c, h / 2, w / 2)
    ensures forall y, x :: 0 <= y < h / 2 && 0 <= x < w / 2 ==>
      2 * y + i / 2 < h && 2 * x + i % 2 < w && c[y][x] == PlaneSum(a[2 * y + i / 2][2 * x + i % 2])
  {
    seq(h / 2, y requires 0 <= y < h / 2 =>
      HalfIndex(y, h, i / 2);
      seq(w / 2, x requires 0 <= x < w / 2 =>
        HalfIndex(x, w, i % 2);
        PlaneSum(a[2 * y + i / 2][2 * x + i % 2])))
  }

  lemma HalfIndex(y: nat, h: nat, k: nat)
    requires y < h / 2 && k < 2
    ensures 2 * y + k < h
  {
  }

  /** For even dimensions the split is a bijection: pixel (y, x) feeds
      exactly one channel cell, the one of its tile offset. */
  lemma PixelFeedsOneCell(h: nat, w: nat, y: nat, x: nat, i: nat, cy: nat, cx: nat)
    requires h % 2 == 0 && w % 2 == 0 && y < h && x < w
    requires i < 4 && cy < h / 2 && cx < w / 2
    ensures (2 * cy + i / 2 == y && 2 * cx + i % 2 == x) <==> (i == 2 * (y % 2) + x % 2 && cy == y / 2 && cx == x / 2)
    ensures y / 2 < h / 2 && x / 2 < w / 2
  {
  }

  /** Splitting a frame expanded by `_to_3d` gives back the raw samples:
      channel i at (y, x) is raw pixel (2y + i // 2, 2x + i % 2). */
  lemma ChannelsOfExpanded(raw: seq<seq<nat>>, h: nat, w: nat, order: nat, i: nat, y: nat, x: nat)
    requires IsGrid(raw, h, w) && order < 4 && h % 2 == 0 && w % 2 == 0
    requires forall yy, xx :: 0 <= yy < h && 0 <= xx < w ==> raw[yy][xx] < 65536
    requires i < 4 && y < h / 2 && x < w / 2
    ensures var planes := Bayer.To3d(raw, h, w, order).value;
      ChannelsFromBayer(planes, h, w).Ok? &&
      ChannelsFromBayer(planes, h, w).value[i][y][x] == raw[2 * y + i / 2][2 * x + i % 2]
  {
    var planes := Bayer.To3d(raw, h, w, order).value;
    Bayer.PlanesSumToRaw(raw, h, w, order, 2 * y + i / 2, 2 * x + i % 2);
    assert ChannelsFromBayer(planes, h, w).value[i][y][x] == PlaneSum(planes[2 * y + i / 2][2 * x + i % 2]);
  }

  // ---- lst_from_channels: geometry ----

  /** Cells along one axis for a channel of n pixels: `(2n) // 64 + 1`.
      A cell spans 64 sensor pixels, which is 32 channel pixels after the
      Bayer split, and the cells cover the channel. */
  function TableSize(n: nat): (m: nat)
    ensures m >= 1 && 32 * (m - 1) <= n < 32 * m
  {
    HalveDivision(n);
    (2 * n) / 64 + 1
  }

  lemma HalveDivision(n: nat)
    ensures (2 * n) / 64 == n / 32
  {
    var q, r := n / 32, n % 32;
    assert 2 * n == 64 * q + 2 * r;
  }

  /** The table size is the rounded-up quotient by 64 of the full sensor
      dimension, except when that dimension is a multiple of 64: then the
      table has one more cell than needed. */
  lemma TableSizeVersusCeiling(n: nat)
    ensures (2 * n) % 64 != 0 ==> TableSize(n) == (2 * n + 63) / 64
    ensures (2 * n) % 64 == 0 ==> TableSize(n) == (2 * n + 63) / 64 + 1
  {
    var full := 2 * n;
    var q, r := full / 64, full % 64;
    assert full + 63 == 64 * q + (r + 63);
    if r == 0 {
      assert (full + 63) / 64 == q;
    } else {
      assert 64 <= r + 63 < 128;
      assert (full + 63) / 64 == q + 1;
    }
  }

  /** The clamped index `edge` padding reads for position x of an axis of n > 0. */
  function Clamp(x: nat, n: nat): (c: nat)
    requires n > 0
    ensures c < n && (x < n ==> c == x)
  {
    if x < n then x else n - 1
  }

  /** Edge padding along one axis: extend to n entries by repeating the last. */
  function PadRow(row: seq<nat>, n: nat): (r: seq<nat>)
    requires 0 < |row| <= n
    ensures |r| == n
    ensures forall y :: 0 <= y < |row| ==> r[y] == row[y]
    ensures forall y :: |row| <= y < n ==> r[y] == row[|row| - 1]
  {
    seq(n, y requires 0 <= y < n => row[Clamp(y, |row|)])
  }

  /** `np.pad(ch, [(0, pw - iw), (0, ph - ih)], mode="edge")`: extend to
      pw x ph by repeating the last row and column. numpy refuses to extend
      an empty axis in this mode. */
  function EdgePad(ch: seq<seq<nat>>, iw: nat, ih: nat, pw: nat, ph: nat): (r: Result<seq<seq<nat>>, ShadingError>)
    requires IsGrid(ch, iw, ih) && iw <= pw && ih <= ph
    ensures r.Ok? <==> !(iw == 0 && pw > 0) && !(ih == 0 && ph > 0)
    ensures r.Ok? ==> IsGrid(r.value, pw, ph)
    ensures r.Ok? ==> forall x, y :: 0 <= x < iw && 0 <= y < ih ==> r.value[x][y] == ch[x][y]
    ensures r.Ok? ==> forall x, y :: iw <= x < pw && 0 <= y < ph ==> r.value[x][y] == r.value[iw - 1][y]
    ensures r.Ok? ==> forall x, y :: 0 <= x < pw && ih <= y < ph ==> r.value[x][y] == r.value[x][ih - 1]
  {
    if (iw == 0 && pw > 0) || (ih == 0 && ph > 0) then Err(EmptyChannel)
    else if ih == 0 then Ok(seq(pw, x => []))
    else Ok(seq(pw, x requires 0 <= x < pw => PadRow(ch[Clamp(x, iw)], ph)))
  }

  /** Every padded entry is the channel entry at the clamped position. */
  lemma EdgePadClamps(ch: seq<seq<nat>>, iw: nat, ih: nat, pw: nat, ph: nat, x: nat, y: nat)
    requires IsGrid(ch, iw, ih) && iw <= pw && ih <= ph && x < pw && y < ph
    requires EdgePad(ch, iw, ih, pw, ph).Ok?
    ensures iw > 0 && ih > 0
    ensures EdgePad(ch, iw, ih, pw, ph).value[x][y] == ch[Clamp(x, iw)][Clamp(y, ih)]
  {
    var p := EdgePad(ch, iw, ih, pw, ph).value;
    var cx := Clamp(x, iw);
    assert p[x][y] == p[cx][y];
    assert p[cx][y] == p[cx][Clamp(y, ih)];
  }

  /** Entry d (0 to 8) of the 3x3 box around the centre of cell (p, q):
      row offset d / 3 - 1, column offset d % 3 - 1. */
  function BoxSample(padded: seq<seq<nat>>, lw: nat, lh: nat, p: nat, q: nat, d: nat): nat
    requires IsGrid(padded, 32 * lw, 32 * lh) && p < lw && q < lh && d < 9
  {
    SampleInside(lw, p, d / 3);
    SampleInside(lh, q, d % 3);
    padded[32 * p + 15 + d / 3][32 * q + 15 + d % 3]
  }

  /** The sampled rows `16 + dx::32` for dx in {-1, 0, 1} stay inside the
      padded channel of 32 * lw rows and give exactly lw samples. */
  lemma SampleInside(lw: nat, p: nat, k: nat)
    requires p < lw && k < 3
    ensures 32 * p + 15 + k < 32 * lw
  {
    assert 32 * p + 32 <= 32 * lw;
  }

  /** How the sample minus the black level is evaluated. */
  datatype Arithmetic =
    | Uint16Wrap   // numpy subtracts in the padded channel's `uint16`
    | Exact        // the signed difference

  function LessBlack(s: nat, mode: Arithmetic): int {
    if mode == Uint16Wrap then Wrap16(s - BlackLevel) else s - BlackLevel
  }

  /** Sum of the box entries d, ..., 8, black level removed from each. */
  function BoxTotal(padded: seq<seq<nat>>, lw: nat, lh: nat, p: nat, q: nat, d: nat, mode: Arithmetic): int
    requires IsGrid(padded, 32 * lw, 32 * lh) && p < lw && q < lh && d <= 9
    decreases 9 - d
  {
    if d == 9 then 0
    else LessBlack(BoxSample(padded, lw, lh, p, q, d), mode) + BoxTotal(padded, lw, lh, p, q, d + 1, mode)
  }

  /** The shading cell: the nine black-level-corrected samples added into
      the float table and divided by 9. */
  function BoxMean(padded: seq<seq<nat>>, lw: nat, lh: nat, p: nat, q: nat, mode: Arithmetic): real
    requires IsGrid(padded, 32 * lw, 32 * lh) && p < lw && q < lh
  {
    BoxTotal(padded, lw, lh, p, q, 0, mode) as real / 9.0
  }

  /** Around a cell where all nine samples equal v, the total is 9 times v
      less the black level, evaluated in the given arithmetic. */
  lemma {:induction false} BoxTotalUniform(padded: seq<seq<nat>>, lw: nat, lh: nat, p: nat, q: nat, d: nat, mode: Arithmetic, v: nat)
    requires IsGrid(padded, 32 * lw, 32 * lh) && p < lw && q < lh && d <= 9
    requires forall e :: d <= e < 9 ==> BoxSample(padded, lw, lh, p, q, e) == v
    ensures BoxTotal(padded, lw, lh, p, q, d, mode) == (9 - d) * LessBlack(v, mode)
    decreases 9 - d
  {
    if d < 9 {
      BoxTotalUniform(padded, lw, lh, p, q, d + 1, mode, v);
      var l := LessBlack(v, mode);
      assert (9 - d) * l == (9 - (d + 1)) * l + l;
    }
  }

  lemma NinthOfNine(x: int)
    ensures (9 * x) as real / 9.0 == x as real
  {
  }

  /** With exact arithmetic a uniform box gives v - 64 for every v, dark or not. */
  lemma BoxMeanUniform(padded: seq<seq<nat>>, lw: nat, lh: nat, p: nat, q: nat, v: nat)
    requires IsGrid(padded, 32 * lw, 32 * lh) && p < lw && q < lh
    requires forall e :: 0 <= e < 9 ==> BoxSample(padded, lw, lh, p, q, e) == v
    ensures BoxMean(padded, lw, lh, p, q, Exact) == (v - BlackLevel) as real
  {
    BoxTotalUniform(padded, lw, lh, p, q, 0, Exact, v);
  }

  /** In `uint16` a uniform box darker than the black level wraps to a huge
      value instead of v - 64: an all-zero box gives 65472, not -64. */
  lemma BoxMeanWrapsBelowBlack(padded: seq<seq<nat>>, lw: nat, lh: nat, p: nat, q: nat, v: nat)
    requires IsGrid(padded, 32 * lw, 32 * lh) && p < lw && q < lh && v < BlackLevel
    requires forall e :: 0 <= e < 9 ==> BoxSample(padded, lw, lh, p, q, e) == v
    ensures BoxMean(padded, lw, lh, p, q, Uint16Wrap) == (v - BlackLevel + 65536) as real
    ensures BoxMean(padded, lw, lh, p, q, Uint16Wrap) != BoxMean(padded, lw, lh, p, q, Exact)
  {
    BoxTotalUniform(padded, lw, lh, p, q, 0, Uint16Wrap, v);
    BoxTotalUniform(padded, lw, lh, p, q, 0, Exact, v);
  }

  /** Where no sample is below the black level the two arithmetics agree. */
  lemma {:induction false} BoxTotalAgrees(padded: seq<seq<nat>>, lw: nat, lh: nat, p: nat, q: nat, d: nat)
    requires IsGrid(padded, 32 * lw, 32 * lh) && p < lw && q < lh && d <= 9
    requires forall e :: d <= e < 9 ==> BlackLevel <= BoxSample(padded, lw, lh, p, q, e) < 65536
    ensures BoxTotal(padded, lw, lh, p, q, d, Uint16Wrap) == BoxTotal(padded, lw, lh, p, q, d, Exact)
    decreases 9 - d
  {
    if d < 9 {
      BoxTotalAgrees(padded, lw, lh, p, q, d + 1);
    }
  }

  /** The lw x lh table of cells of one padded channel. */
  function Cells(padded: seq<seq<nat>>, lw: nat, lh: nat, mode: Arithmetic): (c: seq<seq<real>>)
    requires IsGrid(padded, 32 * lw, 32 * lh)
    ensures IsGrid(c, lw, lh)
  {
    seq(lw, p requires 0 <= p < lw => seq(lh, q requires 0 <= q < lh => BoxMean(padded, lw, lh, p, q, mode)))
  }

  // ---- normalisation and gains ----

  function Max(a: real, b: real): real {
    if a >= b then a else b
  }

  /** `np.max` of a non-empty row. */
  function RowMax(row: seq<real>): (m: real)
    requires |row| >= 1
    ensures forall j :: 0 <= j < |row| ==> row[j] <= m
    ensures exists j :: 0 <= j < |row| && row[j] == m
  {
    if |row| == 1 then row[0]
    else
      var rest := RowMax(row[1..]);
      assert forall j :: 1 <= j < |row| ==> row[j] == row[1..][j - 1];
      Max(row[0], rest)
  }

  /** `np.max` of a non-empty table. */
  function TableMax(g: seq<seq<real>>, rows: nat, cols: nat): (m: real)
    requires IsGrid(g, rows, cols) && rows >= 1 && cols >= 1
    ensures forall i, j :: 0 <= i < rows && 0 <= j < cols ==> g[i][j] <= m
    ensures exists i, j :: 0 <= i < rows && 0 <= j < cols && g[i][j] == m
    decreases rows
  {
    var first := RowMax(g[0]);
    if rows == 1 then first
    else
      var rest := TableMax(g[1..], rows - 1, cols);
      assert forall i :: 1 <= i < rows ==> g[i] == g[1..][i - 1];
      Max(first, rest)
  }

  /** `ls_channel /= np.max(ls_channel)`. A zero maximum would make every
      cell NaN or infinite, which the model reports as an error. With a
      positive maximum the largest cell becomes exactly 1 and no cell
      exceeds it; with a negative one every cell is at least 1. */
  function Normalise(cells: seq<seq<real>>, lw: nat, lh: nat): (r: Result<seq<seq<real>>, ShadingError>)
    requires IsGrid(cells, lw, lh) && lw >= 1 && lh >= 1
    ensures r.Ok? <==> TableMax(cells, lw, lh) != 0.0
    ensures r.Ok? ==> IsGrid(r.value, lw, lh)
    ensures r.Ok? && TableMax(cells, lw, lh) > 0.0 ==>
      (forall p, q :: 0 <= p < lw && 0 <= q < lh ==> r.value[p][q] <= 1.0) &&
      (exists p, q :: 0 <= p < lw && 0 <= q < lh && r.value[p][q] == 1.0)
    ensures r.Ok? && TableMax(cells, lw, lh) < 0.0 ==>
      forall p, q :: 0 <= p < lw && 0 <= q < lh ==> r.value[p][q] >= 1.0
  {
    var m := TableMax(cells, lw, lh);
    if m == 0.0 then Err(FlatChannel)
    else
      var n := seq(lw, p requires 0 <= p < lw => seq(lh, q requires 0 <= q < lh => cells[p][q] / m));
      NormalisedBounds(cells, n, lw, lh, m);
      Ok(n)
  }

  lemma NormalisedBounds(cells: seq<seq<real>>, n: seq<seq<real>>, lw: nat, lh: nat, m: real)
    requires IsGrid(cells, lw, lh) && IsGrid(n, lw, lh) && lw >= 1 && lh >= 1
    requires m == TableMax(cells, lw, lh) && m != 0.0
    requires forall p, q :: 0 <= p < lw && 0 <= q < lh ==> n[p][q] == cells[p][q] / m
    ensures m > 0.0 ==>
      (forall p, q :: 0 <= p < lw && 0 <= q < lh ==> n[p][q] <= 1.0) &&
      (exists p, q :: 0 <= p < lw && 0 <= q < lh && n[p][q] == 1.0)
    ensures m < 0.0 ==> forall p, q :: 0 <= p < lw && 0 <= q < lh ==> n[p][q] >= 1.0
  {
    forall p, q | 0 <= p < lw && 0 <= q < lh
      ensures m > 0.0 ==> n[p][q] <= 1.0
      ensures m < 0.0 ==> n[p][q] >= 1.0
    {
      RatioToMax(cells[p][q], m);
    }
    if m > 0.0 {
      var p, q :| 0 <= p < lw && 0 <= q < lh && cells[p][q] == m;
      SelfRatio(m);
      assert n[p][q] == 1.0;
    }
  }

  lemma SelfRatio(m: real)
    requires m != 0.0
    ensures m / m == 1.0
  {
  }

  lemma RatioToMax(c: real, m: real)
    requires m != 0.0 && c <= m
    ensures m > 0.0 ==> c / m <= 1.0
    ensures m < 0.0 ==> c / m >= 1.0
  {
    if m > 0.0 {
      assert c / m * m == c;
    } else {
      assert c / m * m == c;
    }
  }

  /** `gains = 32.0 / s`, clipped to 255 from above and then to 32 from
      below, then truncated by `astype(np.uint8)`. A zero cell divides to
      +inf and clips to 255; a negative cell gives a negative gain and
      clips to 32. */
  function Gain(s: real): (g: nat)
    ensures 32 <= g <= 255
    ensures s < 0.0 ==> g == 32
    ensures s == 0.0 ==> g == 255
    ensures s > 0.0 ==>
      (32.0 / s >= 255.0 ==> g == 255) &&
      (32.0 / s < 32.0 ==> g == 32) &&
      (32.0 <= 32.0 / s < 255.0 ==> g as real <= 32.0 / s < g as real + 1.0)
  {
    if s < 0.0 then 32
    else if s == 0.0 then 255
    else
      var x := 32.0 / s;
      if x > 255.0 then 255
      else if x < 32.0 then 32
      else x.Floor
  }

  /** A cell at the normalised maximum, or brighter, needs unity gain. */
  lemma GainAtLeastOne(s: real)
    requires s >= 1.0
    ensures Gain(s) == 32
  {
    assert 32.0 / s <= 32.0 by {
      assert 32.0 / s * s == 32.0;
    }
  }

  /** Darker cells never get smaller gains. */
  lemma GainAntitone(s: real, t: real)
    requires 0.0 < s <= t
    ensures Gain(t) <= Gain(s)
  {
    assert 32.0 / t <= 32.0 / s by {
      assert 32.0 / t * t == 32.0;
      assert 32.0 / s * s == 32.0;
    }
  }

  /** `lens_shading_table[::-1, :, :]`: the first axis, the channel axis, is
      reversed; each channel's table is kept as it is. */
  function Reverse<T>(t: seq<T>): (r: seq<T>)
    ensures |r| == |t| && forall k :: 0 <= k < |t| ==> r[k] == t[|t| - 1 - k]
  {
    if |t| == 0 then [] else Reverse(t[1..]) + [t[0]]
  }

  lemma ReverseTwice<T>(t: seq<T>)
    ensures Reverse(Reverse(t)) == t
  {
  }

  // ---- lst_from_channels ----

  /** The gain table of one channel of iw x ih pixels. */
  function ChannelTable(ch: seq<seq<nat>>, iw: nat, ih: nat, mode: Arithmetic): (r: Result<seq<seq<nat>>, ShadingError>)
    requires IsGrid(ch, iw, ih)
    ensures r.Ok? ==> IsGrid(r.value, TableSize(iw), TableSize(ih))
    ensures r.Ok? ==> forall p, q :: 0 <= p < TableSize(iw) && 0 <= q < TableSize(ih) ==> 32 <= r.value[p][q] <= 255
    ensures iw == 0 || ih == 0 ==> r == Err(EmptyChannel)
    ensures iw > 0 && ih > 0 && r.Err? ==> r.error == FlatChannel
  {
    var lw, lh := TableSize(iw), TableSize(ih);
    if iw == 0 || ih == 0 then Err(EmptyChannel)
    else
      var normalised :- Normalise(ChannelCells(ch, iw, ih, mode), lw, lh);
      Ok(GainTable(normalised, lw, lh))
  }

  /** The cells of a non-empty channel, padded to whole cells. */
  function ChannelCells(ch: seq<seq<nat>>, iw: nat, ih: nat, mode: Arithmetic): (c: seq<seq<real>>)
    requires IsGrid(ch, iw, ih) && iw > 0 && ih > 0
    ensures IsGrid(c, TableSize(iw), TableSize(ih))
  {
    var lw, lh := TableSize(iw), TableSize(ih);
    Cells(EdgePad(ch, iw, ih, 32 * lw, 32 * lh).value, lw, lh, mode)
  }

  /** `(32.0 / ls).clip(32, 255).astype(np.uint8)` entry by entry. */
  function GainTable(normalised: seq<seq<real>>, lw: nat, lh: nat): (g: seq<seq<nat>>)
    requires IsGrid(normalised, lw, lh)
    ensures IsGrid(g, lw, lh)
    ensures forall p, q :: 0 <= p < lw && 0 <= q < lh ==> 32 <= g[p][q] <= 255 && g[p][q] == Gain(normalised[p][q])
  {
    seq(lw, p requires 0 <= p < lw => seq(lh, q requires 0 <= q < lh => Gain(normalised[p][q])))
  }

  /** The tables of all channels, in channel order. */
  function Tables(chs: seq<seq<seq<nat>>>, iw: nat, ih: nat, mode: Arithmetic): (ts: seq<seq<seq<nat>>>)
    requires forall i :: 0 <= i < |chs| ==> IsGrid(chs[i], iw, ih) && ChannelTable(chs[i], iw, ih, mode).Ok?
    ensures |ts| == |chs|
  {
    seq(|chs|, i requires 0 <= i < |chs| => ChannelTable(chs[i], iw, ih, mode).value)
  }

  /** `lst_from_channels` with the black level removed in the given
      arithmetic: one gain table per channel, built in channel order, then
      the channel order reversed. The first failing channel raises; padding
      fails on the first channel if any does. */
  function LstFrom(chs: seq<seq<seq<nat>>>, iw: nat, ih: nat, mode: Arithmetic): (r: Result<seq<seq<seq<nat>>>, ShadingError>)
    requires forall i :: 0 <= i < |chs| ==> IsGrid(chs[i], iw, ih)
    ensures r.Ok? <==> forall i :: 0 <= i < |chs| ==> ChannelTable(chs[i], iw, ih, mode).Ok?
    ensures |chs| > 0 && (iw == 0 || ih == 0) ==> r == Err(EmptyChannel)
    ensures r.Ok? ==> r.value == Reverse(Tables(chs, iw, ih, mode))
  {
    if |chs| > 0 && (iw == 0 || ih == 0) then
      assert ChannelTable(chs[0], iw, ih, mode).Err?;
      Err(EmptyChannel)
    else if exists i :: 0 <= i < |chs| && ChannelTable(chs[i], iw, ih, mode).Err? then Err(FlatChannel)
    else Ok(Reverse(Tables(chs, iw, ih, mode)))
  }

  /** Only the channel axis is reversed: table k of the result is the
      whole, unchanged table of channel n - 1 - k. */
  lemma LstReversesChannels(chs: seq<seq<seq<nat>>>, iw: nat, ih: nat, mode: Arithmetic, k: nat)
    requires forall i :: 0 <= i < |chs| ==> IsGrid(chs[i], iw, ih)
    requires LstFrom(chs, iw, ih, mode).Ok? && k < |chs|
    ensures |LstFrom(chs, iw, ih, mode).value| == |chs|
    ensures LstFrom(chs, iw, ih, mode).value[k] == ChannelTable(chs[|chs| - 1 - k], iw, ih, mode).value
    ensures IsGrid(LstFrom(chs, iw, ih, mode).value[k], TableSize(iw), TableSize(ih))
  {
    var ts := Tables(chs, iw, ih, mode);
    assert ts[|chs| - 1 - k] == ChannelTable(chs[|chs| - 1 - k], iw, ih, mode).value;
  }

  /** Entry (p, q) of a channel's table is the gain of its cell over the
      largest cell. */
  lemma ChannelTableAt(ch: seq<seq<nat>>, iw: nat, ih: nat, mode: Arithmetic, p: nat, q: nat)
    requires IsGrid(ch, iw, ih) && iw > 0 && ih > 0 && p < TableSize(iw) && q < TableSize(ih)
    requires ChannelTable(ch, iw, ih, mode).Ok?
    ensures var cells := ChannelCells(ch, iw, ih, mode);
      ChannelTable(ch, iw, ih, mode).value[p][q] == Gain(cells[p][q] / TableMax(cells, TableSize(iw), TableSize(ih)))
  {
  }

  predicate Uniform(g: seq<seq<nat>>, rows: nat, cols: nat, v: nat)
    requires IsGrid(g, rows, cols)
  {
    forall x, y :: 0 <= x < rows && 0 <= y < cols ==> g[x][y] == v
  }

  /** Every cell of a uniform channel is its value less the black level. */
  lemma UniformCells(ch: seq<seq<nat>>, iw: nat, ih: nat, mode: Arithmetic, v: nat)
    requires IsGrid(ch, iw, ih) && Uniform(ch, iw, ih, v) && iw > 0 && ih > 0 && BlackLevel < v < 65536
    ensures var cells := ChannelCells(ch, iw, ih, mode);
      forall p, q :: 0 <= p < TableSize(iw) && 0 <= q < TableSize(ih) ==> cells[p][q] == (v - BlackLevel) as real
  {
    forall p, q | 0 <= p < TableSize(iw) && 0 <= q < TableSize(ih)
      ensures ChannelCells(ch, iw, ih, mode)[p][q] == (v - BlackLevel) as real
    {
      UniformCell(ch, iw, ih, mode, v, p, q);
    }
  }

  lemma UniformCell(ch: seq<seq<nat>>, iw: nat, ih: nat, mode: Arithmetic, v: nat, p: nat, q: nat)
    requires IsGrid(ch, iw, ih) && Uniform(ch, iw, ih, v) && iw > 0 && ih > 0 && BlackLevel < v < 65536
    requires p < TableSize(iw) && q < TableSize(ih)
    ensures ChannelCells(ch, iw, ih, mode)[p][q] == (v - BlackLevel) as real
  {
    forall e | 0 <= e < 9
      ensures ch[Clamp(32 * p + 15 + e / 3, iw)][Clamp(32 * q + 15 + e % 3, ih)] == v
    {
    }
    FlatBoxCell(ch, iw, ih, mode, v, p, q);
  }

  /** A cell whose nine box samples, read through the edge padding, all
      equal v is v less the black level in the given arithmetic. */
  lemma FlatBoxCell(ch: seq<seq<nat>>, iw: nat, ih: nat, mode: Arithmetic, v: nat, p: nat, q: nat)
    requires IsGrid(ch, iw, ih) && iw > 0 && ih > 0 && p < TableSize(iw) && q < TableSize(ih)
    requires forall e :: 0 <= e < 9 ==> ch[Clamp(32 * p + 15 + e / 3, iw)][Clamp(32 * q + 15 + e % 3, ih)] == v
    ensures ChannelCells(ch, iw, ih, mode)[p][q] == LessBlack(v, mode) as real
  {
    var lw, lh := TableSize(iw), TableSize(ih);
    var padded := EdgePad(ch, iw, ih, 32 * lw, 32 * lh).value;
    assert ChannelCells(ch, iw, ih, mode)[p][q] == BoxMean(padded, lw, lh, p, q, mode);
    FlatBoxSamples(ch, iw, ih, v, p, q);
    BoxTotalUniform(padded, lw, lh, p, q, 0, mode, v);
    NinthOfNine(LessBlack(v, mode));
  }

  lemma FlatBoxSamples(ch: seq<seq<nat>>, iw: nat, ih: nat, v: nat, p: nat, q: nat)
    requires IsGrid(ch, iw, ih) && iw > 0 && ih > 0 && p < TableSize(iw) && q < TableSize(ih)
    requires forall e :: 0 <= e < 9 ==> ch[Clamp(32 * p + 15 + e / 3, iw)][Clamp(32 * q + 15 + e % 3, ih)] == v
    ensures forall e :: 0 <= e < 9 ==>
      BoxSample(EdgePad(ch, iw, ih, 32 * TableSize(iw), 32 * TableSize(ih)).value, TableSize(iw), TableSize(ih), p, q, e) == v
  {
    var lw, lh := TableSize(iw), TableSize(ih);
    var padded := EdgePad(ch, iw, ih, 32 * lw, 32 * lh).value;
    forall e | 0 <= e < 9
      ensures BoxSample(padded, lw, lh, p, q, e) == v
    {
      SampleInside(lw, p, e / 3);
      SampleInside(lh, q, e % 3);
      EdgePadClamps(ch, iw, ih, 32 * lw, 32 * lh, 32 * p + 15 + e / 3, 32 * q + 15 + e % 3);
    }
  }

  /** A uniform channel above the black level gets a flat table of unity
      gains, whichever arithmetic removes the black level. */
  lemma UniformChannelUnityGain(ch: seq<seq<nat>>, iw: nat, ih: nat, mode: Arithmetic, v: nat)
    requires IsGrid(ch, iw, ih) && Uniform(ch, iw, ih, v) && iw > 0 && ih > 0 && BlackLevel < v < 65536
    ensures ChannelTable(ch, iw, ih, mode).Ok?
    ensures forall p, q :: 0 <= p < TableSize(iw) && 0 <= q < TableSize(ih) ==> ChannelTable(ch, iw, ih, mode).value[p][q] == 32
  {
    var lw, lh := TableSize(iw), TableSize(ih);
    var cells := ChannelCells(ch, iw, ih, mode);
    var c := (v - BlackLevel) as real;
    UniformCells(ch, iw, ih, mode, v);
    var m := TableMax(cells, lw, lh);
    assert m == c;
    assert Normalise(cells, lw, lh).Ok?;
    SelfRatio(c);
    GainAtLeastOne(1.0);
    forall p, q | 0 <= p < lw && 0 <= q < lh
      ensures ChannelTable(ch, iw, ih, mode).value[p][q] == 32
    {
      ChannelTableAt(ch, iw, ih, mode, p, q);
    }
  }

  /** The table of uniform channels above the black level is 32 everywhere. */
  lemma UniformLstUnityGain(chs: seq<seq<seq<nat>>>, iw: nat, ih: nat, mode: Arithmetic, v: nat)
    requires forall i :: 0 <= i < |chs| ==> IsGrid(chs[i], iw, ih) && Uniform(chs[i], iw, ih, v)
    requires iw > 0 && ih > 0 && BlackLevel < v < 65536
    ensures LstFrom(chs, iw, ih, mode).Ok?
    ensures forall k, p, q :: 0 <= k < |chs| && 0 <= p < TableSize(iw) && 0 <= q < TableSize(ih) ==>
      LstFrom(chs, iw, ih, mode).value[k][p][q] == 32
  {
    forall i | 0 <= i < |chs|
      ensures ChannelTable(chs[i], iw, ih, mode).Ok?
      ensures forall p, q :: 0 <= p < TableSize(iw) && 0 <= q < TableSize(ih) ==> ChannelTable(chs[i], iw, ih, mode).value[p][q] == 32
    {
      UniformChannelUnityGain(chs[i], iw, ih, mode, v);
    }
  }

  // ---- the black level in uint16 ----

  /** A channel of 33 x 1 pixels, black (0) in its first 32 rows and
      brighter than the black level (128) in the last. It has two cells:
      one all black, one all 128. */
  function DarkThenBright(): (ch: seq<seq<nat>>)
    ensures IsGrid(ch, 33, 1)
  {
    seq(33, x requires 0 <= x < 33 => [if x < 32 then 0 else 128])
  }

  /** Subtracting the black level in `uint16` turns the black cell into
      the brightest one (65472), so the bright cell is normalised to about
      1/1000 and gets the maximum gain 255. With the signed difference the
      black cell is negative and both cells get unity gain. */
  lemma DarkCellSaturatesTable()
    ensures ChannelTable(DarkThenBright(), 33, 1, Uint16Wrap) == Ok([[32], [255]])
    ensures ChannelTable(DarkThenBright(), 33, 1, Exact) == Ok([[32], [32]])
  {
    DarkThenBrightTable(Uint16Wrap, 65472.0);
    DarkThenBrightTable(Exact, -64.0);
    TwoCellGains();
  }

  lemma DarkThenBrightTable(mode: Arithmetic, dark: real)
    requires dark == LessBlack(0, mode) as real
    ensures ChannelTable(DarkThenBright(), 33, 1, mode) == Ok([[Gain(dark / Max(dark, 64.0))], [Gain(64.0 / Max(dark, 64.0))]])
  {
    DarkThenBrightCells(mode, dark);
    TwoCellTable(DarkThenBright(), 33, 1, mode, dark, 64.0);
  }

  lemma TwoCellGains()
    ensures Gain(65472.0 / Max(65472.0, 64.0)) == 32 && Gain(64.0 / Max(65472.0, 64.0)) == 255
    ensures Gain(-64.0 / Max(-64.0, 64.0)) == 32 && Gain(64.0 / Max(-64.0, 64.0)) == 32
  {
    SelfRatio(65472.0);
    SelfRatio(64.0);
    GainAtLeastOne(1.0);
    assert 32.0 / (64.0 / 65472.0) == 32736.0;
  }

  /** The table of a channel with two cells, a over b. */
  lemma TwoCellTable(ch: seq<seq<nat>>, iw: nat, ih: nat, mode: Arithmetic, a: real, b: real)
    requires IsGrid(ch, iw, ih) && iw > 0 && ih > 0 && TableSize(iw) == 2 && TableSize(ih) == 1
    requires ChannelCells(ch, iw, ih, mode)[0][0] == a && ChannelCells(ch, iw, ih, mode)[1][0] == b
    requires Max(a, b) != 0.0
    ensures ChannelTable(ch, iw, ih, mode) == Ok([[Gain(a / Max(a, b))], [Gain(b / Max(a, b))]])
  {
    var cells := ChannelCells(ch, iw, ih, mode);
    var m := TableMax(cells, 2, 1);
    assert m == Max(a, b);
    assert Normalise(cells, 2, 1).Ok?;
    var t := ChannelTable(ch, iw, ih, mode).value;
    ChannelTableAt(ch, iw, ih, mode, 0, 0);
    ChannelTableAt(ch, iw, ih, mode, 1, 0);
    TwoByOne(t);
  }

  lemma TwoByOne(t: seq<seq<nat>>)
    requires IsGrid(t, 2, 1)
    ensures t == [[t[0][0]], [t[1][0]]]
  {
    assert t[0] == [t[0][0]];
    assert t[1] == [t[1][0]];
  }

  lemma DarkThenBrightCells(mode: Arithmetic, dark: real)
    requires dark == LessBlack(0, mode) as real
    ensures TableSize(33) == 2 && TableSize(1) == 1
    ensures ChannelCells(DarkThenBright(), 33, 1, mode)[0][0] == dark
    ensures ChannelCells(DarkThenBright(), 33, 1, mode)[1][0] == 64.0
  {
    var ch := DarkThenBright();
    assert forall x :: 0 <= x < 32 ==> ch[x][0] == 0;
    assert ch[32][0] == 128;
    DarkOverBrightCells(ch, mode);
  }

  lemma DarkOverBrightCells(ch: seq<seq<nat>>, mode: Arithmetic)
    requires IsGrid(ch, 33, 1) && ch[32][0] == 128
    requires forall x :: 0 <= x < 32 ==> ch[x][0] == 0
    ensures TableSize(33) == 2 && TableSize(1) == 1
    ensures ChannelCells(ch, 33, 1, mode)[0][0] == LessBlack(0, mode) as real
    ensures ChannelCells(ch, 33, 1, mode)[1][0] == 64.0
  {
    assert TableSize(33) == 2 && TableSize(1) == 1;
    DarkCorner(ch, mode);
    BrightCorner(ch, mode);
  }

  lemma DarkCorner(ch: seq<seq<nat>>, mode: Arithmetic)
    requires IsGrid(ch, 33, 1)
    requires forall x :: 0 <= x < 32 ==> ch[x][0] == 0
    ensures TableSize(33) == 2 && TableSize(1) == 1
    ensures ChannelCells(ch, 33, 1, mode)[0][0] == LessBlack(0, mode) as real
  {
    assert TableSize(33) == 2 && TableSize(1) == 1;
    forall e | 0 <= e < 9
      ensures ch[Clamp(15 + e / 3, 33)][Clamp(15 + e % 3, 1)] == 0
    {
    }
    FlatBoxCell(ch, 33, 1, mode, 0, 0, 0);
  }

  lemma BrightCorner(ch: seq<seq<nat>>, mode: Arithmetic)
    requires IsGrid(ch, 33, 1) && ch[32][0] == 128
    ensures TableSize(33) == 2 && TableSize(1) == 1
    ensures ChannelCells(ch, 33, 1, mode)[1][0] == 64.0
  {
    assert TableSize(33) == 2 && TableSize(1) == 1;
    forall e | 0 <= e < 9
      ensures ch[Clamp(32 + 15 + e / 3, 33)][Clamp(15 + e % 3, 1)] == 128
    {
    }
    FlatBoxCell(ch, 33, 1, mode, 128, 1, 0);
  }
}
