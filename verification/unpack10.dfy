/** The packed 10-bit raw format: every 5 bytes hold the high 8 bits of
    4 pixels followed by one byte with their 4 pairs of low bits, the
    first pixel's pair in the top two bits. */
module Unpack10 {
  import opened Results
  import opened Bits
  import opened Grids

  datatype UnpackError = RowNotWholeGroups

  /** Weight of pixel p's two low bits inside the fifth byte of its group. */
  function LowWeight(p: nat): nat
    requires p < 4
  {
    [64, 16, 4, 1][p]
  }

  lemma PowersOfTwo()
    ensures Pow2(0) == 1 && Pow2(1) == 2 && Pow2(2) == 4 && Pow2(3) == 8
    ensures Pow2(4) == 16 && Pow2(5) == 32 && Pow2(6) == 64 && Pow2(7) == 128 && Pow2(8) == 256
  {
  }

  /** The two low bits of pixel p, read from the fifth byte of its group. */
  function LowBits(lo: Byte, p: nat): (b: nat)
    requires p < 4
    ensures b < 4
  {
    (lo / LowWeight(p)) % 4
  }

  /** One decoded pixel, computed as `data_to_array` does: the high byte is
      widened and shifted left by two, the fifth byte is shifted the same way
      and then right by `(4 - p) * 2`, masked with 3, and or-ed in. */
  function GroupValue(hi: Byte, lo: Byte, p: nat): (v: nat)
    requires p < 4
    ensures v < 1024
    ensures v == 4 * hi + LowBits(lo, p)
  {
    var low := BitAnd(Shr(Shl(lo, 2), (4 - p) * 2), 3);
    ShiftedLowBits(lo, p);
    BitOrDisjoint(hi, 2, low);
    BitOr(Shl(hi, 2), low)
  }

  lemma ShiftedLowBits(lo: Byte, p: nat)
    requires p < 4
    ensures Pow2(2) == 4
    ensures BitAnd(Shr(Shl(lo, 2), (4 - p) * 2), 3) == LowBits(lo, p)
  {
    PowersOfTwo();
    var w := LowWeight(p);
    assert Pow2((4 - p) * 2) == 4 * w by {
      if p == 0 {} else if p == 1 {} else if p == 2 {} else {}
    }
    assert Shl(lo, 2) == 4 * lo;
    DivModUnique(4 * lo, 4 * w, lo / w, 4 * (lo % w));
    BitAndLowMask(lo / w, 2);
  }

  /** The fifth byte of a group: the four pairs of low bits, first pixel highest. */
  function LowByte(v0: nat, v1: nat, v2: nat, v3: nat): (b: Byte) {
    64 * (v0 % 4) + 16 * (v1 % 4) + 4 * (v2 % 4) + v3 % 4
  }

  lemma LowBitsOfLowByte(v0: nat, v1: nat, v2: nat, v3: nat, p: nat)
    requires p < 4
    ensures LowBits(LowByte(v0, v1, v2, v3), p) == [v0, v1, v2, v3][p] % 4
  {
    PowersOfTwo();
    var a, b, c, d := v0 % 4, v1 % 4, v2 % 4, v3 % 4;
    var lo := LowByte(v0, v1, v2, v3);
    if p == 0 {
      DivModUnique(lo, 64, a, 16 * b + 4 * c + d);
    } else if p == 1 {
      DivModUnique(lo, 16, 4 * a + b, 4 * c + d);
      DivModUnique(4 * a + b, 4, a, b);
    } else if p == 2 {
      DivModUnique(lo, 4, 16 * a + 4 * b + c, d);
      DivModUnique(16 * a + 4 * b + c, 4, 4 * a + b, c);
    } else {
      DivModUnique(lo, 4, 16 * a + 4 * b + c, d);
    }
  }

  lemma LowByteOfLowBits(lo: Byte)
    ensures LowByte(LowBits(lo, 0), LowBits(lo, 1), LowBits(lo, 2), LowBits(lo, 3)) == lo
  {
    var a, r0 := lo / 64, lo % 64;
    var b, r1 := r0 / 16, r0 % 16;
    var c, d := r1 / 4, r1 % 4;
    assert a < 4 && lo == 64 * a + 16 * b + 4 * c + d;
    assert LowBits(lo, 0) == a by {
      DivModUnique(a, 4, 0, a);
    }
    assert LowBits(lo, 1) == b by {
      DivModUnique(lo, 16, 4 * a + b, 4 * c + d);
      DivModUnique(4 * a + b, 4, a, b);
    }
    assert LowBits(lo, 2) == c by {
      DivModUnique(lo, 4, 16 * a + 4 * b + c, d);
      DivModUnique(16 * a + 4 * b + c, 4, 4 * a + b, c);
    }
    assert LowBits(lo, 3) == d by {
      DivModUnique(lo, 1, lo, 0);
      DivModUnique(lo, 4, 16 * a + 4 * b + c, d);
    }
    DivModUnique(b, 4, 0, b);
    DivModUnique(c, 4, 0, c);
    DivModUnique(d, 4, 0, d);
  }

  lemma GroupIndex(c: nat, groups: nat)
    requires c < groups * 4
    ensures c / 4 < groups && 5 * (c / 4) + 4 < groups * 5
  {
  }

  /** One row of `data_to_array`: output column `4g + p` is pixel p of the
      g-th 5-byte group. */
  function UnpackRow(row: seq<Byte>): (r: seq<nat>)
    requires |row| % 5 == 0
    ensures |r| == |row| / 5 * 4
  {
    seq(|row| / 5 * 4, c requires 0 <= c < |row| / 5 * 4 =>
      GroupIndex(c, |row| / 5);
      GroupValue(row[5 * (c / 4) + c % 4], row[5 * (c / 4) + 4], c % 4))
  }

  /** `PiBayerArray.data_to_array` before the optional plane expansion.
      numpy raises on a row whose byte count is not a multiple of 5: one of
      the strided assignments then has mismatched shapes. */
  function DataToArray(data: seq<seq<Byte>>, rows: nat, cols: nat): (r: Result<seq<seq<nat>>, UnpackError>)
    requires IsGrid(data, rows, cols)
    ensures r.Ok? <==> cols % 5 == 0
    ensures r.Ok? ==> IsGrid(r.value, rows, cols * 4 / 5)
    ensures r.Ok? ==> forall i, c :: 0 <= i < rows && 0 <= c < cols * 4 / 5 ==> r.value[i][c] < 1024
    ensures r.Ok? ==> forall i :: 0 <= i < rows ==> Decodes(r.value[i], data[i])
  {
    if cols % 5 != 0 then Err(RowNotWholeGroups)
    else
      var out := seq(rows, i requires 0 <= i < rows => UnpackRow(data[i]));
      assert forall i :: 0 <= i < rows ==> Decodes(out[i], data[i]) by {
        forall i | 0 <= i < rows
          ensures Decodes(out[i], data[i])
        {
          UnpackDecodes(data[i]);
        }
      }
      Ok(out)
  }

  /** Pixel p of byte group g of a decoded row. */
  function GroupPixel(out: seq<nat>, g: nat, p: nat): nat
    requires 4 * g + p < |out|
  {
    out[4 * g + p]
  }

  /** Pixel `4g + p` of a decoded row is pixel p of the g-th 5-byte group:
      its high byte times four plus its two low bits. */
  predicate Decodes(out: seq<nat>, row: seq<Byte>) {
    |row| % 5 == 0 && |out| == |row| / 5 * 4 &&
    forall g, p :: 0 <= g < |row| / 5 && 0 <= p < 4 ==>
      4 * g + p < |out| && 5 * g + 4 < |row| &&
      GroupPixel(out, g, p) == 4 * row[5 * g + p] + LowBits(row[5 * g + 4], p)
  }

  lemma UnpackDecodes(row: seq<Byte>)
    requires |row| % 5 == 0
    ensures Decodes(UnpackRow(row), row)
  {
    forall g, p | 0 <= g < |row| / 5 && 0 <= p < 4
      ensures 4 * g + p < |UnpackRow(row)| && 5 * g + 4 < |row|
      ensures GroupPixel(UnpackRow(row), g, p) == 4 * row[5 * g + p] + LowBits(row[5 * g + 4], p)
    {
      UnpackAt(row, g, p);
    }
  }

  lemma UnpackAt(row: seq<Byte>, g: nat, p: nat)
    requires |row| % 5 == 0 && g < |row| / 5 && p < 4
    ensures 4 * g + p < |UnpackRow(row)| && 5 * g + 4 < |row|
    ensures UnpackRow(row)[4 * g + p] == 4 * row[5 * g + p] + LowBits(row[5 * g + 4], p)
  {
    var c := 4 * g + p;
    DivModUnique(c, 4, g, p);
  }

  // ---- packing, the inverse the camera firmware applies ----

  predicate TenBit(vals: seq<nat>) {
    forall i :: 0 <= i < |vals| ==> vals[i] < 1024
  }

  /** Packs 10-bit pixels 4 at a time into 5 bytes. */
  function PackRow(vals: seq<nat>): (r: seq<Byte>)
    requires |vals| % 4 == 0 && TenBit(vals)
    ensures |r| == |vals| / 4 * 5
  {
    seq(|vals| / 4 * 5, i requires 0 <= i < |vals| / 4 * 5 =>
      var g := i / 5;
      var k := i % 5;
      assert 4 * g + 3 < |vals|;
      if k < 4 then vals[4 * g + k] / 4
      else LowByte(vals[4 * g], vals[4 * g + 1], vals[4 * g + 2], vals[4 * g + 3]))
  }

  lemma PackAt(vals: seq<nat>, g: nat, k: nat)
    requires |vals| % 4 == 0 && TenBit(vals) && g < |vals| / 4 && k < 5
    ensures 5 * g + k < |PackRow(vals)| && 4 * g + 3 < |vals|
    ensures PackRow(vals)[5 * g + k] ==
      if k < 4 then vals[4 * g + k] / 4
      else LowByte(vals[4 * g], vals[4 * g + 1], vals[4 * g + 2], vals[4 * g + 3])
  {
    DivModUnique(5 * g + k, 5, g, k);
  }

  lemma UnpackPackAt(vals: seq<nat>, g: nat, p: nat)
    requires |vals| % 4 == 0 && TenBit(vals) && g < |vals| / 4 && p < 4
    ensures |PackRow(vals)| % 5 == 0 && 4 * g + p < |UnpackRow(PackRow(vals))|
    ensures UnpackRow(PackRow(vals))[4 * g + p] == vals[4 * g + p]
  {
    var row := PackRow(vals);
    assert |row| / 5 == |vals| / 4;
    UnpackAt(row, g, p);
    PackAt(vals, g, p);
    PackAt(vals, g, 4);
    LowBitsOfLowByte(vals[4 * g], vals[4 * g + 1], vals[4 * g + 2], vals[4 * g + 3], p);
    var v := vals[4 * g + p];
    assert [vals[4 * g], vals[4 * g + 1], vals[4 * g + 2], vals[4 * g + 3]][p] == v;
    assert 4 * (v / 4) + v % 4 == v;
  }

  /** Unpacking a packed row gives back the 10-bit pixels. */
  lemma UnpackPackRow(vals: seq<nat>)
    requires |vals| % 4 == 0 && TenBit(vals)
    ensures |PackRow(vals)| % 5 == 0
    ensures UnpackRow(PackRow(vals)) == vals
  {
    var u := UnpackRow(PackRow(vals));
    forall c | 0 <= c < |vals|
      ensures u[c] == vals[c]
    {
      DivModUnique(c, 4, c / 4, c % 4);
      UnpackPackAt(vals, c / 4, c % 4);
    }
  }

  lemma DecodedTenBit(u: seq<nat>, row: seq<Byte>)
    requires Decodes(u, row)
    ensures |u| % 4 == 0 && TenBit(u)
  {
    forall c | 0 <= c < |u|
      ensures u[c] < 1024
    {
      var g, p := c / 4, c % 4;
      assert c == 4 * g + p && g < |row| / 5;
      assert GroupPixel(u, g, p) == u[c];
    }
  }

  lemma PackDecodedHigh(u: seq<nat>, row: seq<Byte>, g: nat, k: nat)
    requires Decodes(u, row) && TenBit(u) && g < |row| / 5 && k < 4
    ensures 5 * g + k < |row| && 5 * g + k < |PackRow(u)|
    ensures PackRow(u)[5 * g + k] == row[5 * g + k]
  {
    assert GroupPixel(u, g, k) == 4 * row[5 * g + k] + LowBits(row[5 * g + 4], k);
    PackAt(u, g, k);
    DivModUnique(u[4 * g + k], 4, row[5 * g + k], LowBits(row[5 * g + 4], k));
  }

  lemma PackDecodedLow(u: seq<nat>, row: seq<Byte>, g: nat)
    requires Decodes(u, row) && TenBit(u) && g < |row| / 5
    ensures 5 * g + 4 < |row| && 5 * g + 4 < |PackRow(u)|
    ensures PackRow(u)[5 * g + 4] == row[5 * g + 4]
  {
    var lo := row[5 * g + 4];
    assert GroupPixel(u, g, 0) == 4 * row[5 * g] + LowBits(lo, 0);
    assert GroupPixel(u, g, 1) == 4 * row[5 * g + 1] + LowBits(lo, 1);
    assert GroupPixel(u, g, 2) == 4 * row[5 * g + 2] + LowBits(lo, 2);
    assert GroupPixel(u, g, 3) == 4 * row[5 * g + 3] + LowBits(lo, 3);
    PackGroupLow(u, g, row[5 * g], row[5 * g + 1], row[5 * g + 2], row[5 * g + 3], lo);
  }

  lemma PackGroupLow(u: seq<nat>, g: nat, h0: Byte, h1: Byte, h2: Byte, h3: Byte, lo: Byte)
    requires |u| % 4 == 0 && TenBit(u) && g < |u| / 4
    requires u[4 * g] == 4 * h0 + LowBits(lo, 0) && u[4 * g + 1] == 4 * h1 + LowBits(lo, 1)
    requires u[4 * g + 2] == 4 * h2 + LowBits(lo, 2) && u[4 * g + 3] == 4 * h3 + LowBits(lo, 3)
    ensures 5 * g + 4 < |PackRow(u)| && PackRow(u)[5 * g + 4] == lo
  {
    var l0, l1, l2, l3 := LowBits(lo, 0), LowBits(lo, 1), LowBits(lo, 2), LowBits(lo, 3);
    calc {
      PackRow(u)[5 * g + 4];
      { PackAt(u, g, 4); }
      LowByte(4 * h0 + l0, 4 * h1 + l1, 4 * h2 + l2, 4 * h3 + l3);
      { LowByteIgnoresHigh(h0, h1, h2, h3, l0, l1, l2, l3); }
      LowByte(l0, l1, l2, l3);
      { LowByteOfLowBits(lo); }
      lo;
    }
  }

  /** Packing an unpacked row gives back the bytes: the format loses nothing. */
  lemma PackUnpackRow(row: seq<Byte>)
    requires |row| % 5 == 0
    ensures |UnpackRow(row)| % 4 == 0 && TenBit(UnpackRow(row))
    ensures PackRow(UnpackRow(row)) == row
  {
    UnpackDecodes(row);
    PackDecoded(UnpackRow(row), row);
  }

  lemma PackDecoded(u: seq<nat>, row: seq<Byte>)
    requires Decodes(u, row)
    ensures |u| % 4 == 0 && TenBit(u)
    ensures PackRow(u) == row
  {
    DecodedTenBit(u, row);
    var packed := PackRow(u);
    forall i | 0 <= i < |row|
      ensures packed[i] == row[i]
    {
      var g, k := i / 5, i % 5;
      assert i == 5 * g + k && g < |row| / 5;
      if k < 4 {
        PackDecodedHigh(u, row, g, k);
      } else {
        PackDecodedLow(u, row, g);
      }
    }
  }

  lemma LowByteIgnoresHigh(h0: nat, h1: nat, h2: nat, h3: nat, l0: nat, l1: nat, l2: nat, l3: nat)
    requires l0 < 4 && l1 < 4 && l2 < 4 && l3 < 4
    ensures LowByte(4 * h0 + l0, 4 * h1 + l1, 4 * h2 + l2, 4 * h3 + l3) == LowByte(l0, l1, l2, l3)
  {
    LowPair(h0, l0);
    LowPair(h1, l1);
    LowPair(h2, l2);
    LowPair(h3, l3);
  }

  lemma LowPair(h: nat, l: nat)
    requires l < 4
    ensures (4 * h + l) % 4 == l
  {
    DivModUnique(4 * h + l, 4, h, l);
  }

  /** Packs every row of a grid of 10-bit pixels. */
  function PackGrid(vals: seq<seq<nat>>, rows: nat, cols: nat): (r: seq<seq<Byte>>)
    requires IsGrid(vals, rows, cols) && cols % 4 == 0
    requires forall i :: 0 <= i < rows ==> TenBit(vals[i])
    ensures IsGrid(r, rows, cols / 4 * 5)
  {
    seq(rows, i requires 0 <= i < rows => PackRow(vals[i]))
  }

  /** `data_to_array` inverts the packing of any grid of 10-bit pixels whose
      width is a multiple of 4. */
  lemma DataToArrayPackGrid(vals: seq<seq<nat>>, rows: nat, cols: nat)
    requires IsGrid(vals, rows, cols) && cols % 4 == 0
    requires forall i :: 0 <= i < rows ==> TenBit(vals[i])
    ensures DataToArray(PackGrid(vals, rows, cols), rows, cols / 4 * 5) == Ok(vals)
  {
    var packed := PackGrid(vals, rows, cols);
    var w := cols / 4 * 5;
    assert w % 5 == 0 && w * 4 / 5 == cols;
    var r := DataToArray(packed, rows, w);
    forall i | 0 <= i < rows
      ensures r.value[i] == vals[i]
    {
      UnpackPackRow(vals[i]);
    }
    assert r.value == vals;
  }
}
