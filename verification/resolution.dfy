/** `PiResolution`: a (width, height) pair with block padding, transposition
    and its `WxH` text form. */
module Resolution {
  import opened Results
  import Decimal
  import Bits

  datatype PiResolution = PiResolution(width: int, height: int)

  datatype PadError = ZeroBlockSize

  /** Python's `a // b`: floor division, for either sign of the divisor. */
  function FloorDiv(a: int, b: int): (q: int)
    requires b != 0
    ensures b > 0 ==> b * q <= a < b * q + b
    ensures b < 0 ==> b * q + b < a <= b * q
  {
    if b > 0 then a / b else (0 - a) / (0 - b)
  }

  /** Smallest multiple of `block` that is at least `x` (for a positive block). */
  function RoundUp(x: int, block: int): (r: int)
    requires block != 0
    ensures block > 0 ==> r % block == 0 && x <= r < x + block
  {
    var q := FloorDiv(x + (block - 1), block);
    if block > 0 then
      Bits.DivModUnique(q * block, block, q, 0);
      q * block
    else
      q * block
  }

  /** `PiResolution.pad(width, height)`; a zero block size raises
      `ZeroDivisionError` in Python. */
  function Pad(res: PiResolution, width: int, height: int): (r: Result<PiResolution, PadError>)
    ensures r.Err? <==> width == 0 || height == 0
    ensures r.Ok? && width > 0 ==> r.value.width % width == 0 && res.width <= r.value.width < res.width + width
    ensures r.Ok? && height > 0 ==> r.value.height % height == 0 && res.height <= r.value.height < res.height + height
  {
    if width == 0 || height == 0 then Err(ZeroBlockSize)
    else Ok(PiResolution(RoundUp(res.width, width), RoundUp(res.height, height)))
  }

  /** `pad()` with its default 32x16 block. */
  function PadDefault(res: PiResolution): (r: PiResolution)
    ensures r.width % 32 == 0 && res.width <= r.width < res.width + 32
    ensures r.height % 16 == 0 && res.height <= r.height < res.height + 16
  {
    Pad(res, 32, 16).value
  }

  function Transpose(res: PiResolution): (r: PiResolution)
    ensures r.width == res.height && r.height == res.width
  {
    PiResolution(res.height, res.width)
  }

  /** `str(res)`: `'%dx%d' % (width, height)`. */
  function ToString(res: PiResolution): (s: string)
    ensures 'x' in s
  {
    Decimal.IntToString(res.width) + "x" + Decimal.IntToString(res.height)
  }

  /** Inverse of `ToString`: split at the first `x` and parse both halves. */
  function FromString(s: string): Option<PiResolution> {
    if 'x' !in s then None
    else
      var i := IndexOfX(s);
      var w, h := s[..i], s[i + 1..];
      if IsNumeral(w) && IsNumeral(h) then Some(PiResolution(Decimal.ParseInt(w), Decimal.ParseInt(h)))
      else None
  }

  predicate IsNumeral(s: string) {
    forall i :: 0 <= i < |s| ==> Decimal.IsDigit(s[i]) || (i == 0 && s[i] == '-')
  }

  function IndexOfX(s: string): (i: nat)
    requires 'x' in s
    ensures i < |s| && s[i] == 'x' && 'x' !in s[..i]
  {
    if s[0] == 'x' then 0 else 1 + IndexOfX(s[1..])
  }

  // ---- Properties ----

  /** A block size that is already a divisor leaves a padded value alone. */
  lemma RoundUpIdempotent(x: int, block: int)
    requires block > 0
    ensures RoundUp(RoundUp(x, block), block) == RoundUp(x, block)
  {
    var r := RoundUp(x, block);
    var k := FloorDiv(x + (block - 1), block);
    assert r == block * k;
    Bits.DivModUnique(r + (block - 1), block, k, block - 1);
  }

  lemma PadIdempotent(res: PiResolution, width: int, height: int)
    requires width > 0 && height > 0
    ensures Pad(res, width, height).Ok?
    ensures Pad(Pad(res, width, height).value, width, height) == Pad(res, width, height)
  {
    RoundUpIdempotent(res.width, width);
    RoundUpIdempotent(res.height, height);
  }

  /** The docstring examples; the second doctest's 128 disagrees with the code. */
  lemma PadExamples()
    ensures PadDefault(PiResolution(1920, 1080)) == PiResolution(1920, 1088)
    ensures Pad(PiResolution(100, 100), 16, 16) == Ok(PiResolution(112, 112))
    ensures Pad(PiResolution(100, 100), 16, 16) != Ok(PiResolution(128, 112))
  {
  }

  lemma TransposeInvolution(res: PiResolution)
    ensures Transpose(Transpose(res)) == res
  {
  }

  /** Padding commutes with transposition when the block is transposed too. */
  lemma PadTranspose(res: PiResolution, width: int, height: int)
    ensures Pad(Transpose(res), height, width).Ok? == Pad(res, width, height).Ok?
    ensures Pad(res, width, height).Ok? ==> Pad(Transpose(res), height, width).value == Transpose(Pad(res, width, height).value)
  {
  }

  lemma NoXInNumeral(n: int)
    ensures 'x' !in Decimal.IntToString(n)
  {
  }

  /** `WxH` text round-trips: the first `x` is the separator. */
  lemma ToStringRoundTrip(res: PiResolution)
    ensures FromString(ToString(res)) == Some(res)
  {
    var w, h := Decimal.IntToString(res.width), Decimal.IntToString(res.height);
    var s := ToString(res);
    NoXInNumeral(res.width);
    assert s[|w|] == 'x';
    assert s[..|w|] == w;
    assert IndexOfX(s) == |w|;
    assert s[|w| + 1..] == h;
    Decimal.ParseIntToString(res.width);
    Decimal.ParseIntToString(res.height);
  }
}
