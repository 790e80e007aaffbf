/** `bytes_to_yuv` and `bytes_to_rgb`: unencoded camera frames are stored
    with a stride rounded up to the camera's block size and are cropped back
    to the requested resolution. */
module Buffers {
  import opened Results
  import opened Grids
  import opened Bits
  import RawGeometry

  datatype Yuv = Yuv(y: Byte, u: Byte, v: Byte)

  datatype BufferError = IncorrectBufferLength(width: nat, height: nat)

  /** Frame size (fwidth, fheight) that the camera really writes. */
  function Stride(width: nat, height: nat, splitter: bool): (r: (nat, nat))
    ensures r.0 >= width && r.1 >= height
    ensures r.1 % 2 == 0 && r.0 % 2 == 0
  {
    var f := RawGeometry.RawResolution(width, height, splitter);
    EvenMultiple(f.0);
    EvenMultiple(f.1);
    (f.0, f.1)
  }

  lemma EvenMultiple(x: int)
    requires x % 16 == 0 || x % 32 == 0
    ensures x % 2 == 0
  {
    if x % 16 == 0 {
      DivModUnique(x, 2, 8 * (x / 16), 0);
    } else {
      DivModUnique(x, 2, 16 * (x / 32), 0);
    }
  }

  /** YUV420 size: a full-resolution Y plane and quarter-resolution U and V planes. */
  function YuvLength(width: nat, height: nat): nat {
    var (fw, fh) := Stride(width, height, false);
    fw * fh + 2 * ((fw / 2) * (fh / 2))
  }

  /** Pixel `(row, col)` of a YUV420 buffer with a `fw` x `fh` stride: luma
      from the Y plane, chroma from entry `(row / 2, col / 2)` of the
      quarter-size U and V planes that follow it. */
  function YuvAt(data: seq<Byte>, fw: nat, fh: nat, row: nat, col: nat): Yuv
    requires |data| == fw * fh + 2 * ((fw / 2) * (fh / 2))
    requires fw % 2 == 0 && fh % 2 == 0 && row < fh && col < fw
  {
    var hw, hh := fw / 2, fh / 2;
    IndexInRange(row, col, fh, fw);
    IndexInRange(row / 2, col / 2, hh, hw);
    var yLen, uvLen := fw * fh, hw * hh;
    var q := (row / 2) * hw + col / 2;
    assert q < uvLen;
    Yuv(data[row * fw + col], data[yLen + q], data[yLen + uvLen + q])
  }

  /** `bytes_to_yuv(data, (width, height))`. */
  function BytesToYuv(data: seq<Byte>, width: nat, height: nat): (r: Result<seq<seq<Yuv>>, BufferError>)
    ensures r.Ok? <==> |data| == YuvLength(width, height)
    ensures r.Ok? ==> IsGrid(r.value, height, width)
  {
    var f := Stride(width, height, false);
    var fw, fh := f.0, f.1;
    if |data| != fw * fh + 2 * ((fw / 2) * (fh / 2)) then Err(IncorrectBufferLength(width, height))
    else
      Ok(seq(height, row requires 0 <= row < height =>
        seq(width, col requires 0 <= col < width => YuvAt(data, fw, fh, row, col))))
  }

  /** Both planes of chroma are shared by each aligned 2x2 block of pixels. */
  lemma YuvChromaReplicated(data: seq<Byte>, width: nat, height: nat, row: nat, col: nat)
    requires BytesToYuv(data, width, height).Ok?
    requires row < height && col < width
    ensures var img := BytesToYuv(data, width, height).value;
            var r0, c0 := row - row % 2, col - col % 2;
            img[row][col].u == img[r0][c0].u && img[row][col].v == img[r0][c0].v
  {
  }

  lemma HalfBelow(i: nat, n: nat)
    requires i < n && n % 2 == 0
    ensures i / 2 < n / 2
  {
  }

  /** Pixel `(row, col)` assembled from separate planes: its own luma and the
      chroma of its 2x2 block. */
  function PlanePixel(y: seq<seq<Byte>>, u: seq<seq<Byte>>, v: seq<seq<Byte>>, fw: nat, fh: nat, row: nat, col: nat): Yuv
    requires fw % 2 == 0 && fh % 2 == 0 && row < fh && col < fw
    requires IsGrid(y, fh, fw) && IsGrid(u, fh / 2, fw / 2) && IsGrid(v, fh / 2, fw / 2)
  {
    HalfBelow(row, fh);
    HalfBelow(col, fw);
    Yuv(y[row][col], u[row / 2][col / 2], v[row / 2][col / 2])
  }

  /** The `height` x `width` image that a Y plane and quarter-size U and V
      planes describe. */
  function FromPlanes(y: seq<seq<Byte>>, u: seq<seq<Byte>>, v: seq<seq<Byte>>, fw: nat, fh: nat, width: nat, height: nat): (img: seq<seq<Yuv>>)
    requires fw % 2 == 0 && fh % 2 == 0 && width <= fw && height <= fh
    requires IsGrid(y, fh, fw) && IsGrid(u, fh / 2, fw / 2) && IsGrid(v, fh / 2, fw / 2)
    ensures IsGrid(img, height, width)
  {
    seq(height, row requires 0 <= row < height =>
      seq(width, col requires 0 <= col < width => PlanePixel(y, u, v, fw, fh, row, col)))
  }

  /** Laying out a Y plane and quarter-size U and V planes in YUV420 order and
      decoding gives each pixel its own luma and the chroma of its 2x2 block. */
  lemma YuvRoundTrip(y: seq<seq<Byte>>, u: seq<seq<Byte>>, v: seq<seq<Byte>>, width: nat, height: nat)
    requires IsGrid(y, Stride(width, height, false).1, Stride(width, height, false).0)
    requires IsGrid(u, Stride(width, height, false).1 / 2, Stride(width, height, false).0 / 2)
    requires IsGrid(v, Stride(width, height, false).1 / 2, Stride(width, height, false).0 / 2)
    ensures BytesToYuv(Flatten(y) + Flatten(u) + Flatten(v), width, height)
            == Ok(FromPlanes(y, u, v, Stride(width, height, false).0, Stride(width, height, false).1, width, height))
  {
    var f := Stride(width, height, false);
    var fw, fh := f.0, f.1;
    var data := YuvPlanesLength(y, u, v, fw, fh);
    var got := BytesToYuv(data, width, height).value;
    var want := FromPlanes(y, u, v, fw, fh, width, height);
    forall row | 0 <= row < height
      ensures got[row] == want[row]
    {
      forall col | 0 <= col < width
        ensures got[row][col] == want[row][col]
      {
        YuvPixelFromPlanes(y, u, v, fw, fh, row, col);
      }
    }
    assert got == want;
  }

  /** The three flattened planes have the YUV420 length of a `fw` x `fh` frame. */
  lemma YuvPlanesLength(y: seq<seq<Byte>>, u: seq<seq<Byte>>, v: seq<seq<Byte>>, fw: nat, fh: nat)
    returns (data: seq<Byte>)
    requires IsGrid(y, fh, fw) && IsGrid(u, fh / 2, fw / 2) && IsGrid(v, fh / 2, fw / 2)
    ensures data == Flatten(y) + Flatten(u) + Flatten(v)
    ensures |data| == fw * fh + 2 * ((fw / 2) * (fh / 2))
  {
    var hw, hh := fw / 2, fh / 2;
    FlattenLength(y, fh, fw);
    FlattenLength(u, hh, hw);
    FlattenLength(v, hh, hw);
    var n, q := fh * fw, hh * hw;
    assert n == fw * fh && q == hw * hh;
    data := Flatten(y) + Flatten(u) + Flatten(v);
    assert |data| == n + q + q;
  }

  lemma YuvPixelFromPlanes(y: seq<seq<Byte>>, u: seq<seq<Byte>>, v: seq<seq<Byte>>, fw: nat, fh: nat, row: nat, col: nat)
    requires fw % 2 == 0 && fh % 2 == 0 && row < fh && col < fw
    requires IsGrid(y, fh, fw) && IsGrid(u, fh / 2, fw / 2) && IsGrid(v, fh / 2, fw / 2)
    ensures |Flatten(y) + Flatten(u) + Flatten(v)| == fw * fh + 2 * ((fw / 2) * (fh / 2))
    ensures YuvAt(Flatten(y) + Flatten(u) + Flatten(v), fw, fh, row, col) == PlanePixel(y, u, v, fw, fh, row, col)
  {
    var fy, fu, fv := Flatten(y), Flatten(u), Flatten(v);
    var hw, hh := fw / 2, fh / 2;
    FlattenAt(y, fh, fw, row, col);
    FlattenAt(u, hh, hw, row / 2, col / 2);
    FlattenAt(v, hh, hw, row / 2, col / 2);
    var _ := YuvPlanesLength(y, u, v, fw, fh);
    YuvAtPlanes(fy, fu, fv, fw, fh, row, col);
  }

  /** `YuvAt` reads luma from the first plane and chroma from the other two. */
  lemma YuvAtPlanes(fy: seq<Byte>, fu: seq<Byte>, fv: seq<Byte>, fw: nat, fh: nat, row: nat, col: nat)
    requires fw % 2 == 0 && fh % 2 == 0 && row < fh && col < fw
    requires |fy| == fh * fw && |fu| == (fh / 2) * (fw / 2) && |fv| == (fh / 2) * (fw / 2)
    ensures |fy + fu + fv| == fw * fh + 2 * ((fw / 2) * (fh / 2))
    ensures row * fw + col < |fy| && (row / 2) * (fw / 2) + col / 2 < |fu|
    ensures YuvAt(fy + fu + fv, fw, fh, row, col)
            == Yuv(fy[row * fw + col], fu[(row / 2) * (fw / 2) + col / 2], fv[(row / 2) * (fw / 2) + col / 2])
  {
    var hw, hh := fw / 2, fh / 2;
    IndexInRange(row, col, fh, fw);
    IndexInRange(row / 2, col / 2, hh, hw);
    var d := fy + fu + fv;
    var p, q := row * fw + col, (row / 2) * hw + col / 2;
    var yLen, uvLen := fw * fh, hw * hh;
    assert yLen == |fy| && uvLen == |fu|;
    assert d[p] == fy[p];
    assert d[yLen + q] == fu[q];
    assert d[yLen + uvLen + q] == fv[q];
  }

  // ---- RGB ----

  function RgbLength(width: nat, height: nat, splitter: bool): nat {
    var (fw, fh) := Stride(width, height, splitter);
    fw * fh * 3
  }

  /** Pixel `(row, col)` of a `3 * fw`-byte-stride RGB buffer. */
  function RgbAt(data: seq<Byte>, fw: nat, fh: nat, row: nat, col: nat): Rgb<Byte>
    requires |data| == fw * fh * 3 && row < fh && col < fw
  {
    IndexInRange(row, col, fh, fw);
    var i := (row * fw + col) * 3;
    assert i + 2 < fw * fh * 3;
    Rgb(data[i], data[i + 1], data[i + 2])
  }

  function DecodeRgb(data: seq<Byte>, width: nat, height: nat, fw: nat, fh: nat): (img: seq<seq<Rgb<Byte>>>)
    requires |data| == fw * fh * 3 && width <= fw && height <= fh
    ensures IsGrid(img, height, width)
  {
    seq(height, row requires 0 <= row < height => seq(width, col requires 0 <= col < width => RgbAt(data, fw, fh, row, col)))
  }

  /** `bytes_to_rgb(data, (width, height))`: the 32-pixel stride first, then
      the 16-pixel stride of the video splitter, else an error. */
  function BytesToRgb(data: seq<Byte>, width: nat, height: nat): (r: Result<seq<seq<Rgb<Byte>>>, BufferError>)
    ensures r.Ok? <==> |data| == RgbLength(width, height, false) || |data| == RgbLength(width, height, true)
    ensures r.Ok? ==> IsGrid(r.value, height, width)
  {
    var (fw, fh) := Stride(width, height, false);
    if |data| == fw * fh * 3 then Ok(DecodeRgb(data, width, height, fw, fh))
    else
      var (sw, sh) := Stride(width, height, true);
      if |data| == sw * sh * 3 then Ok(DecodeRgb(data, width, height, sw, sh))
      else Err(IncorrectBufferLength(width, height))
  }

  function PixelBytes(p: Rgb<Byte>): (s: seq<Byte>)
    ensures |s| == 3 && forall k :: 0 <= k < 3 ==> s[k] == p.At(k)
  {
    [p.r, p.g, p.b]
  }

  /** Row-major interleaved bytes of an RGB image (what the camera writes). */
  function EncodeRgb(img: seq<seq<Rgb<Byte>>>): seq<Byte> {
    var pixels := Flatten(img);
    Flatten(seq(|pixels|, i requires 0 <= i < |pixels| => PixelBytes(pixels[i])))
  }

  lemma EncodeRgbLength(img: seq<seq<Rgb<Byte>>>, fh: nat, fw: nat)
    requires IsGrid(img, fh, fw)
    ensures |EncodeRgb(img)| == fw * fh * 3
  {
    FlattenLength(img, fh, fw);
    var pixels := Flatten(img);
    var cells := seq(|pixels|, i requires 0 <= i < |pixels| => PixelBytes(pixels[i]));
    assert IsGrid(cells, fh * fw, 3);
    FlattenLength(cells, fh * fw, 3);
    assert fh * fw * 3 == fw * fh * 3;
  }

  lemma EncodeRgbByte(img: seq<seq<Rgb<Byte>>>, fh: nat, fw: nat, row: nat, col: nat, k: nat)
    requires IsGrid(img, fh, fw) && row < fh && col < fw && k < 3
    ensures (row * fw + col) * 3 + k < |EncodeRgb(img)| == fw * fh * 3
    ensures EncodeRgb(img)[(row * fw + col) * 3 + k] == img[row][col].At(k)
  {
    FlattenAt(img, fh, fw, row, col);
    var pixels := Flatten(img);
    var cells := seq(|pixels|, i requires 0 <= i < |pixels| => PixelBytes(pixels[i]));
    assert IsGrid(cells, fh * fw, 3);
    FlattenAt(cells, fh * fw, 3, row * fw + col, k);
    assert fh * fw * 3 == fw * fh * 3;
  }

  lemma EncodeRgbAt(img: seq<seq<Rgb<Byte>>>, fh: nat, fw: nat, row: nat, col: nat)
    requires IsGrid(img, fh, fw) && row < fh && col < fw
    ensures |EncodeRgb(img)| == fw * fh * 3
    ensures RgbAt(EncodeRgb(img), fw, fh, row, col) == img[row][col]
  {
    EncodeRgbByte(img, fh, fw, row, col, 0);
    EncodeRgbByte(img, fh, fw, row, col, 1);
    EncodeRgbByte(img, fh, fw, row, col, 2);
  }

  /** Decoding the encoding of a `fh` x `fw` image at its own stride crops it. */
  lemma DecodeEncodeRgb(img: seq<seq<Rgb<Byte>>>, fh: nat, fw: nat, width: nat, height: nat)
    requires IsGrid(img, fh, fw) && width <= fw && height <= fh
    ensures |EncodeRgb(img)| == fw * fh * 3
    ensures DecodeRgb(EncodeRgb(img), width, height, fw, fh) == Crop(img, height, width)
  {
    EncodeRgbLength(img, fh, fw);
    var got := DecodeRgb(EncodeRgb(img), width, height, fw, fh);
    var want := Crop(img, height, width);
    forall row | 0 <= row < height
      ensures got[row] == want[row]
    {
      forall col | 0 <= col < width
        ensures got[row][col] == want[row][col]
      {
        EncodeRgbAt(img, fh, fw, row, col);
      }
    }
    assert got == want;
  }

  lemma StrideFrameSizes(width: nat, height: nat)
    ensures Stride(width, height, true).1 == Stride(width, height, false).1
    ensures var (sw, sh) := Stride(width, height, true);
            var (fw, fh) := Stride(width, height, false);
            sw * sh * 3 == fw * fh * 3 ==> sw == fw || height == 0
  {
    var (sw, sh) := Stride(width, height, true);
    var (fw, fh) := Stride(width, height, false);
    if sw * sh * 3 == fw * fh * 3 && sw != fw {
      assert sh * (sw - fw) == 0;
      assert sh == 0;
    }
  }

  /** An image of the padded size, encoded at either stride, decodes to its
      top-left `height` x `width` corner. */
  lemma RgbRoundTrip(img: seq<seq<Rgb<Byte>>>, width: nat, height: nat, splitter: bool)
    requires IsGrid(img, Stride(width, height, splitter).1, Stride(width, height, splitter).0)
    ensures BytesToRgb(EncodeRgb(img), width, height) == Ok(Crop(img, height, width))
  {
    var f := Stride(width, height, splitter);
    DecodeEncodeRgb(img, f.1, f.0, width, height);
    StrideFrameSizes(width, height);
    var p := Stride(width, height, false);
    if p != f && |EncodeRgb(img)| == p.0 * p.1 * 3 {
      // Only an empty frame has the same length at both strides.
      assert height == 0;
    }
  }
}
