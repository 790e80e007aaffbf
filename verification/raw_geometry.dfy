/** Buffer geometry of `picamera_array`: rounding a resolution up to the
    camera's block sizes, the motion-vector array shape, the offset of the
    Bayer block inside a JPEG, and the crop/stride of the packed raw data. */
module RawGeometry {
  import opened Results
  import Bits
  import Resolution

  /** `raw_resolution(resolution, splitter)`: width rounded up to 32 (16
      behind the video splitter) and height to 16, via `(x + 31) & ~31`. */
  function RawResolution(width: int, height: int, splitter: bool): (r: (int, int))
    ensures splitter ==> r.0 % 16 == 0 && width <= r.0 < width + 16
    ensures !splitter ==> r.0 % 32 == 0 && width <= r.0 < width + 32
    ensures r.1 % 16 == 0 && height <= r.1 < height + 16
  {
    Bits.SmallPowers();
    var fwidth := if splitter then Bits.ClearLow(width + 15, 4) else Bits.ClearLow(width + 31, 5);
    var fheight := Bits.ClearLow(height + 15, 4);
    (fwidth, fheight)
  }

  lemma RawResolutionIdempotent(width: int, height: int, splitter: bool)
    ensures var r := RawResolution(width, height, splitter);
            RawResolution(r.0, r.1, splitter) == r
  {
    var r := RawResolution(width, height, splitter);
    var b := if splitter then 16 else 32;
    Bits.DivModUnique(r.0 + (b - 1), b, r.0 / b, b - 1);
    Bits.DivModUnique(r.1 + 15, 16, r.1 / 16, 15);
  }

  /** The default `PiResolution.pad()` is the non-splitter `raw_resolution`, for every integer size. */
  lemma PadAgreesWithRawResolution(width: int, height: int)
    ensures var p := Resolution.PadDefault(Resolution.PiResolution(width, height));
            (p.width, p.height) == RawResolution(width, height, false)
  {
    var p := Resolution.PadDefault(Resolution.PiResolution(width, height));
    var r := RawResolution(width, height, false);
    // Both are the unique multiple of the block in [x, x + block).
    var qp, qr := p.width / 32, r.0 / 32;
    assert p.width == 32 * qp && r.0 == 32 * qr;
    var hp, hr := p.height / 16, r.1 / 16;
    assert p.height == 16 * hp && r.1 == 16 * hr;
  }

  // ---- PiMotionArray.flush ----

  datatype MotionError = NoMacroblockRows | BufferNotWholeRecords | BufferNotWholeFrames

  /** Bytes per motion record: int8 x, int8 y, uint16 sad. */
  const MotionRecordSize := 4

  datatype MotionShape = MotionShape(frames: nat, rows: nat, cols: nat)

  /** Shape of the motion array for a `width` x `height` recording and a
      buffer of `len` bytes; numpy rejects a buffer that is not whole
      records or not whole frames, and Python a zero frame size. */
  function MotionArrayShape(width: nat, height: nat, len: nat): (r: Result<MotionShape, MotionError>)
    ensures r.Ok? <==> height > 0 && len % (MotionRecordSize * ((width + 15) / 16 + 1) * ((height + 15) / 16)) == 0
    ensures r.Ok? ==> r.value.cols == (width + 15) / 16 + 1 && 16 * (r.value.cols - 1) >= width > 16 * (r.value.cols - 2)
    ensures r.Ok? ==> 16 * r.value.rows >= height > 16 * (r.value.rows - 1)
    ensures r.Ok? ==> r.value.frames * r.value.rows * r.value.cols * MotionRecordSize == len
  {
    var cols := (width + 15) / 16 + 1;
    var rows := (height + 15) / 16;
    if rows == 0 then Err(NoMacroblockRows)
    else
      var n := rows * cols;
      var frameSize := cols * rows * MotionRecordSize;
      assert frameSize == MotionRecordSize * n == MotionRecordSize * cols * rows;
      var frames := len / frameSize;
      WholeFrames(len, n);
      if len % MotionRecordSize != 0 then Err(BufferNotWholeRecords)
      else if frames * rows * cols != len / MotionRecordSize then Err(BufferNotWholeFrames)
      else
        assert frames * rows * cols == frames * n;
        Ok(MotionShape(frames, rows, cols))
  }

  /** A buffer reshapes into frames of `n` four-byte records exactly when it is a whole number of frames. */
  lemma WholeFrames(len: nat, n: nat)
    requires n >= 1
    ensures (len % 4 == 0 && (len / (4 * n)) * n == len / 4) <==> len % (4 * n) == 0
    ensures len % (4 * n) == 0 ==> (len / (4 * n)) * n * 4 == len
  {
    var k := len / (4 * n);
    assert len == (4 * n) * k + len % (4 * n);
    if len % (4 * n) == 0 {
      assert len == 4 * (n * k);
      Bits.DivModUnique(len, 4, n * k, 0);
    }
    if len % 4 == 0 && k * n == len / 4 {
      assert len == 4 * (len / 4);
      assert len == (4 * n) * k;
      Bits.DivModUnique(len, 4 * n, k, 0);
    }
  }

  // ---- PiBayerArray.flush ----

  /** The fields of the Broadcom raw header the decoder reads. */
  datatype RawHeader = RawHeader(width: nat, height: nat, paddingRight: nat, paddingDown: nat, bayerOrder: nat)

  /** Columns and rows of the packed data that hold pixels: 5 bytes per 4 pixels. */
  function CropShape(h: RawHeader): (r: Resolution.PiResolution)
    ensures r.height == h.height && 4 * r.width <= 5 * h.width < 4 * r.width + 4
  {
    Resolution.PiResolution(h.width * 5 / 4, h.height)
  }

  /** The crop ends inside a 5-byte group exactly when the pixel width is not
      a multiple of 4, and then by as many bytes as there are spare pixels. */
  lemma CropWidthResidue(h: RawHeader)
    ensures CropShape(h).width / 5 == h.width / 4 && CropShape(h).width % 5 == h.width % 4
  {
    var q, s := h.width / 4, h.width % 4;
    assert h.width * 5 == 4 * (5 * q + s) + s;
    Bits.DivModUnique(h.width * 5, 4, 5 * q + s, s);
    Bits.DivModUnique(5 * q + s, 5, q, s);
  }

  /** Stride of the packed data: the padded line length in bytes (5 bytes per
      4 pixels, rounded up to a whole byte) and the padded height, each
      rounded up to the least multiple of 32 and 16 respectively. */
  function StrideShape(h: RawHeader): (r: Resolution.PiResolution)
    ensures r.width % 32 == 0 && r.height % 16 == 0
    ensures var line := ((h.width + h.paddingRight) * 5 + 3) / 4;
      line <= r.width < line + 32 && 4 * line >= 5 * (h.width + h.paddingRight)
    ensures h.height + h.paddingDown <= r.height < h.height + h.paddingDown + 16
  {
    Resolution.PadDefault(Resolution.PiResolution(((h.width + h.paddingRight) * 5 + 3) / 4, h.height + h.paddingDown))
  }

  /** The crop always lies inside the stride, so numpy's clamping slice is an exact crop. */
  lemma CropInsideStride(h: RawHeader)
    ensures 0 <= CropShape(h).width <= StrideShape(h).width
    ensures 0 <= CropShape(h).height <= StrideShape(h).height
  {
  }

  /** Distance of the Bayer block from the end of the JPEG, by sensor and
      sensor mode; an unknown sensor or mode is a `KeyError`. */
  function SensorOffset(revision: string, mode: int): (r: Option<nat>)
    ensures r.Some? <==> (UpperAscii(revision) == "OV5647" || UpperAscii(revision) == "IMX219") && 0 <= mode <= 7
    ensures r.Some? ==> 445440 <= r.value <= 10270208
  {
    var rev := UpperAscii(revision);
    if rev == "OV5647" && 0 <= mode <= 7 then
      Some([6404096, 2717696, 6404096, 6404096, 1625600, 1233920, 445440, 445440][mode])
    else if rev == "IMX219" && 0 <= mode <= 7 then
      Some([10270208, 2678784, 10270208, 10270208, 2628608, 1963008, 1233920, 445440][mode])
    else None
  }

  /** `str.upper()` on one character, restricted to ASCII letters. */
  function UpperChar(c: char): char {
    if 'a' <= c <= 'z' then (c as int - 32) as char else c
  }

  /** `str.upper()` restricted to ASCII letters. */
  function UpperAscii(s: string): (r: string)
    ensures |r| == |s|
    ensures forall i :: 0 <= i < |s| ==> r[i] == UpperChar(s[i])
  {
    seq(|s|, i requires 0 <= i < |s| => UpperChar(s[i]))
  }

  /** The revision lookup ignores ASCII case: two revision strings that agree
      after upper-casing select the same offset. */
  lemma SensorOffsetCaseInsensitive(a: string, b: string, mode: int)
    requires |a| == |b| && forall i :: 0 <= i < |a| ==> UpperChar(a[i]) == UpperChar(b[i])
    ensures SensorOffset(a, mode) == SensorOffset(b, mode)
  {
    assert UpperAscii(a) == UpperAscii(b);
  }

  /** The whole offset table, sensor by sensor and mode by mode. */
  lemma SensorOffsetTable()
    ensures SensorOffset("OV5647", 0) == Some(6404096) && SensorOffset("OV5647", 1) == Some(2717696)
    ensures SensorOffset("OV5647", 2) == Some(6404096) && SensorOffset("OV5647", 3) == Some(6404096)
    ensures SensorOffset("OV5647", 4) == Some(1625600) && SensorOffset("OV5647", 5) == Some(1233920)
    ensures SensorOffset("OV5647", 6) == Some(445440) && SensorOffset("OV5647", 7) == Some(445440)
    ensures SensorOffset("IMX219", 0) == Some(10270208) && SensorOffset("IMX219", 1) == Some(2678784)
    ensures SensorOffset("IMX219", 2) == Some(10270208) && SensorOffset("IMX219", 3) == Some(10270208)
    ensures SensorOffset("IMX219", 4) == Some(2628608) && SensorOffset("IMX219", 5) == Some(1963008)
    ensures SensorOffset("IMX219", 6) == Some(1233920) && SensorOffset("IMX219", 7) == Some(445440)
  {
    assert UpperAscii("OV5647") == "OV5647";
    assert UpperAscii("IMX219") == "IMX219";
  }

  /** The full-frame modes 0, 2 and 3 of a sensor share one offset, and no
      other mode's raw block is larger. */
  lemma FullFrameOffsetLargest(revision: string, mode: int)
    requires SensorOffset(revision, mode).Some?
    ensures SensorOffset(revision, 0) == SensorOffset(revision, 2) == SensorOffset(revision, 3)
    ensures SensorOffset(revision, mode).value <= SensorOffset(revision, 0).value
  {
  }

  lemma SensorOffsetExamples()
    ensures SensorOffset("imx219", 0) == Some(10270208)
    ensures SensorOffset("OV5647", 7) == Some(445440)
    ensures SensorOffset("IMX477", 0) == None
  {
    assert UpperAscii("imx219") == "IMX219";
    assert UpperAscii("OV5647") == "OV5647";
    assert UpperAscii("IMX477")[4] == '7';
  }
}
