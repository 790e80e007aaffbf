/** The state of a `PiBayerArray` output: construction, `flush` (find the
    raw block at the end of the captured JPEG and decode it) and the cached
    `demosaic`. */
module BayerArrays {
  import opened Results
  import opened Grids
  import opened Bits
  import Unpack10
  import RawGeometry
  import opened Bayer

  /** The four bytes that open the raw block: "BRCM". */
  const Magic: seq<Byte> := [66, 82, 67, 77]

  /** Bytes between the start of the raw block and the first pixel row. */
  const PixelOffset := 32768

  /** `buffer[-offset:]` for a positive offset: the last `offset` bytes, or
      the whole buffer when it is shorter. */
  function Tail(buffer: seq<Byte>, offset: nat): (r: seq<Byte>)
    requires offset > 0
    ensures |r| == if offset < |buffer| then offset else |buffer|
    ensures forall i :: 0 <= i < |r| ==> r[i] == buffer[|buffer| - |r| + i]
  {
    if offset >= |buffer| then buffer else buffer[|buffer| - offset..]
  }

  lemma RowInside(r: nat, rows: nat, cols: nat)
    requires r < rows
    ensures r * cols + cols <= rows * cols
  {
    assert r * cols + cols == (r + 1) * cols;
    MulLeft(cols, r + 1, rows);
  }

  /** `ndarray.reshape((rows, cols))` of a flat byte sequence. */
  function Reshape(flat: seq<Byte>, rows: nat, cols: nat): (g: seq<seq<Byte>>)
    requires |flat| == rows * cols
    ensures IsGrid(g, rows, cols)
  {
    seq(rows, r requires 0 <= r < rows => RowOf(flat, rows, cols, r))
  }

  /** Row r of the reshaped array. */
  function RowOf(flat: seq<Byte>, rows: nat, cols: nat, r: nat): (row: seq<Byte>)
    requires |flat| == rows * cols && r < rows
    ensures |row| == cols && r * cols + cols <= |flat|
    ensures forall c :: 0 <= c < cols ==> row[c] == flat[r * cols + c]
  {
    RowInside(r, rows, cols);
    flat[r * cols .. r * cols + cols]
  }

  /** Reshaping loses nothing: flattening the rows gives back the bytes. */
  lemma {:induction false} FlattenReshape(flat: seq<Byte>, rows: nat, cols: nat)
    requires |flat| == rows * cols
    ensures Flatten(Reshape(flat, rows, cols)) == flat
  {
    if rows > 0 {
      var g := Reshape(flat, rows, cols);
      assert rows * cols == cols + (rows - 1) * cols;
      var rest := flat[cols..];
      assert g[1..] == Reshape(rest, rows - 1, cols) by {
        forall r | 0 <= r < rows - 1
          ensures g[1..][r] == Reshape(rest, rows - 1, cols)[r]
        {
          assert (r + 1) * cols == r * cols + cols;
        }
      }
      FlattenReshape(rest, rows - 1, cols);
      assert flat == g[0] + rest;
    }
  }

  /** Where the ctypes `BroadcomRawHeader` ends in the block: it starts at
      byte 176 and is 72 bytes long (70 bytes of fields padded to the 4-byte
      alignment of its `uint32` array). */
  const HeaderEnd := 176 + 72

  /** `flush` replaces `_header` once the block is found, its magic matches
      and the header bytes are all there, before the pixel data is checked. */
  predicate HeaderReached(buffer: seq<Byte>, revision: string, mode: int) {
    match RawGeometry.SensorOffset(revision, mode)
    case None => false
    case Some(offset) =>
      var data := Tail(buffer, offset);
      |data| >= HeaderEnd && data[..4] == Magic
  }

  datatype Capture = Capture(header: RawGeometry.RawHeader, rows: nat, cols: nat, bytes: seq<seq<Byte>>)

  /** The part of `flush` shared by every Bayer output: look the block up by
      sensor and mode, check the magic, reshape the pixel bytes to the padded
      stride and crop them to the packed width and height. The header is a
      parameter: its ctypes layout is not part of this model. */
  function LocateRaw(buffer: seq<Byte>, revision: string, mode: int, header: RawGeometry.RawHeader)
    : (r: Result<Capture, BayerError>)
    ensures r.Ok? <==>
      RawGeometry.SensorOffset(revision, mode).Some? &&
      var data := Tail(buffer, RawGeometry.SensorOffset(revision, mode).value);
      |data| >= PixelOffset && data[..4] == Magic &&
      |data| - PixelOffset == RawGeometry.StrideShape(header).width * RawGeometry.StrideShape(header).height
    ensures r.Ok? ==> HeaderReached(buffer, revision, mode)
    ensures r.Ok? ==> (r.value.header == header &&
      r.value.rows == RawGeometry.CropShape(header).height && r.value.cols == RawGeometry.CropShape(header).width &&
      IsGrid(r.value.bytes, r.value.rows, r.value.cols))
  {
    match RawGeometry.SensorOffset(revision, mode)
    case None => Err(UnknownSensor)
    case Some(offset) =>
      var data := Tail(buffer, offset);
      if |data| < 4 || data[..4] != Magic then Err(NoBayerData)
      else if |data| < PixelOffset then Err(ShortBuffer)
      else
        RawGeometry.CropInsideStride(header);
        var stride := RawGeometry.StrideShape(header);
        var crop := RawGeometry.CropShape(header);
        var sw: nat := stride.width;
        var sh: nat := stride.height;
        var pixels := data[PixelOffset..];
        if |pixels| != sh * sw then Err(StrideMismatch)
        else
          var grid := Reshape(pixels, sh, sw);
          Ok(Capture(header, crop.height, crop.width, Crop(grid, crop.height, crop.width)))
  }

  /** `self.array`: not yet set (`None`), the unpacked 2-D array, or its
      plane expansion. */
  datatype RawArray = Unset | Flat(values: seq<seq<nat>>) | Expanded(planes: seq<seq<Rgb<nat>>>)

  datatype PiBayerArray = PiBayerArray(
    outputDims: nat,
    header: Option<RawGeometry.RawHeader>,
    rows: nat,
    cols: nat,
    raw: RawArray,
    demo: Option<seq<seq<Rgb<nat>>>>)

  /** What construction and `flush` guarantee about the fields. A failed
      flush of a 3-D array can leave the 2-D array behind, so `Flat` goes
      with either `output_dims`. */
  predicate Valid(a: PiBayerArray) {
    2 <= a.outputDims <= 3 &&
    (a.header.None? ==> a.raw.Unset?) &&
    match a.raw
    case Unset => true
    case Flat(v) => IsGrid(v, a.rows, a.cols)
    case Expanded(p) => a.outputDims == 3 && IsGrid(p, a.rows, a.cols)
  }

  /** The constructor rejects any `output_dims` other than 2 or 3. */
  function New(outputDims: nat): (r: Result<PiBayerArray, BayerError>)
    ensures r.Ok? <==> 2 <= outputDims <= 3
    ensures r.Ok? ==> Valid(r.value) && r.value.header.None? && r.value.raw.Unset? && r.value.demo.None?
  {
    if !(2 <= outputDims <= 3) then Err(BadOutputDims)
    else Ok(PiBayerArray(outputDims, None, 0, 0, Unset, None))
  }

  /** `PiBayerArray.flush`: locate and unpack the raw block, expand it to
      planes when `output_dims` is 3, and drop any cached demosaic. The
      returned object is the state after the call, whether or not it raised:
      the cache is dropped before anything can fail, the header is replaced
      once its bytes are found, and an unknown Bayer order in the expansion
      leaves the freshly unpacked 2-D array behind. */
  function Flush(a: PiBayerArray, buffer: seq<Byte>, revision: string, mode: int, header: RawGeometry.RawHeader)
    : (r: (PiBayerArray, Result<(), BayerError>))
    requires Valid(a)
    ensures Valid(r.0) && r.0.outputDims == a.outputDims && r.0.demo.None?
    ensures r.0.header == if HeaderReached(buffer, revision, mode) then Some(header) else a.header
    ensures r.1.Ok? <==> (LocateRaw(buffer, revision, mode, header).Ok? &&
      RawGeometry.CropShape(header).width % 5 == 0 && (a.outputDims == 2 || header.bayerOrder < 4))
    ensures LocateRaw(buffer, revision, mode, header).Ok? && RawGeometry.CropShape(header).width % 5 == 0 ==>
      (r.0.rows == RawGeometry.CropShape(header).height && r.0.cols == RawGeometry.CropShape(header).width * 4 / 5 &&
       (r.0.raw.Flat? <==> !r.1.Ok? || a.outputDims == 2) && !r.0.raw.Unset?)
    ensures (!LocateRaw(buffer, revision, mode, header).Ok? ||
             (RawGeometry.CropShape(header).width % 5 != 0 && RawGeometry.CropShape(header).width / 5 != 1)) ==>
      (r.0.raw == a.raw && r.0.rows == a.rows && r.0.cols == a.cols)
  {
    var seen := a.(demo := None, header := if HeaderReached(buffer, revision, mode) then Some(header) else a.header);
    match LocateRaw(buffer, revision, mode, header)
    case Err(e) => (seen, Err(e))
    case Ok(cap) =>
      match Unpack10.DataToArray(cap.bytes, cap.rows, cap.cols)
      case Err(_) => (seen, Err(NotWholeGroups))
      case Ok(values) =>
        var flat := seen.(rows := cap.rows, cols := cap.cols * 4 / 5, raw := Flat(values));
        if a.outputDims == 2 then (flat, Ok(()))
        else match To3d(values, flat.rows, flat.cols, header.bayerOrder)
          case Err(e) => (flat, Err(e))
          case Ok(planes) => (flat.(raw := Expanded(planes)), Ok(()))
  }

  /** The demosaic computed from scratch, without the cache. A 2-D array is
      expanded first; a 3-D array whose `array` is still 2-D after a failed
      flush cannot be indexed by plane. */
  function FreshDemosaic(a: PiBayerArray): (r: Result<seq<seq<Rgb<nat>>>, BayerError>)
    requires Valid(a)
    ensures r.Ok? ==> IsGrid(r.value, a.rows, a.cols)
  {
    match a.header
    case None => Err(NotFlushed)
    case Some(h) =>
      var planes :- (match a.raw
        case Unset => Err(NotFlushed)
        case Flat(v) => if a.outputDims == 2 then To3d(v, a.rows, a.cols, h.bayerOrder) else Err(ShapeMismatch)
        case Expanded(p) => Ok(p));
      DemosaicPlanes(planes, a.rows, a.cols, h.bayerOrder)
  }

  /** The cache holds the demosaic of the current array, if anything. */
  predicate Coherent(a: PiBayerArray)
    requires Valid(a)
  {
    a.demo.Some? ==> FreshDemosaic(a) == Ok(a.demo.value)
  }

  /** `PiBayerArray.demosaic`: the cached result if there is one, otherwise
      compute it and keep it. */
  function Demosaic(a: PiBayerArray): (r: Result<(PiBayerArray, seq<seq<Rgb<nat>>>), BayerError>)
    requires Valid(a)
    ensures r.Ok? ==> Valid(r.value.0) && r.value.0.demo == Some(r.value.1)
    ensures r.Ok? ==> r.value.0 == a.(demo := Some(r.value.1))
  {
    if a.demo.Some? then Ok((a, a.demo.value))
    else
      var out :- FreshDemosaic(a);
      Ok((a.(demo := Some(out)), out))
  }

  /** A fresh array, and any array after a flush that failed or not, has a
      coherent cache. */
  lemma NewAndFlushCoherent(a: PiBayerArray, buffer: seq<Byte>, revision: string, mode: int, header: RawGeometry.RawHeader, dims: nat)
    requires Valid(a)
    ensures New(dims).Ok? ==> Coherent(New(dims).value)
    ensures Coherent(Flush(a, buffer, revision, mode, header).0)
  {
  }

  /** Caching is invisible: on a coherent array, `demosaic` returns exactly
      the fresh demosaic, fails exactly when it fails, and leaves the cache
      coherent. */
  lemma DemosaicCacheTransparent(a: PiBayerArray)
    requires Valid(a) && Coherent(a)
    ensures Demosaic(a).Ok? <==> FreshDemosaic(a).Ok?
    ensures Demosaic(a).Ok? ==> Demosaic(a).value.1 == FreshDemosaic(a).value && Coherent(Demosaic(a).value.0)
  {
    if a.demo.None? && FreshDemosaic(a).Ok? {
      var b := Demosaic(a).value.0;
      assert FreshDemosaic(b) == FreshDemosaic(a);
    }
  }

  /** `output_dims` only changes how the array is stored: flushing the same
      capture into a 2-D and a 3-D array demosaics to the same image. */
  lemma DemosaicIgnoresOutputDims(buffer: seq<Byte>, revision: string, mode: int, header: RawGeometry.RawHeader)
    requires Flush(New(2).value, buffer, revision, mode, header).1.Ok?
    requires Flush(New(3).value, buffer, revision, mode, header).1.Ok?
    ensures FreshDemosaic(Flush(New(2).value, buffer, revision, mode, header).0) ==
            FreshDemosaic(Flush(New(3).value, buffer, revision, mode, header).0)
  {
  }

  /** A flush that fails on an unknown Bayer order of a 3-D array leaves the
      new header and the unpacked 2-D array, and the next demosaic fails too
      rather than reusing the previous capture. */
  lemma FailedExpansionDemosaicFails(a: PiBayerArray, buffer: seq<Byte>, revision: string, mode: int, header: RawGeometry.RawHeader)
    requires Valid(a) && a.outputDims == 3 && header.bayerOrder >= 4
    requires LocateRaw(buffer, revision, mode, header).Ok? && RawGeometry.CropShape(header).width % 5 == 0
    ensures Flush(a, buffer, revision, mode, header).1.Err?
    ensures Flush(a, buffer, revision, mode, header).0.header == Some(header)
    ensures FreshDemosaic(Flush(a, buffer, revision, mode, header).0).Err?
  {
  }
}
