# Raw-image analysis for Raspberry Pi camera colour compensation

This project is a Dafny model of the numeric core of `picam_raw_analysis`. That package reads the raw Bayer data a Raspberry Pi camera appends to its JPEG files. From a white calibration image it builds a lens-shading table. From red, green, blue and white calibration images it computes per-block colour-unmixing matrices and applies them. It also parses the camera's EXIF "maker note".

The model has these modules:

- `Resolution`: `PiResolution` rounding, transposing and printing.
- `RawGeometry`: `raw_resolution`, the crop and stride shapes and sensor offsets of `PiBayerArray.flush`, and the motion-array shape.
- `Buffers`: `bytes_to_yuv` and `bytes_to_rgb`.
- `Unpack10`: the 10-bit unpacking of `data_to_array`, with an inverse packer.
- `Bayer`: `BAYER_OFFSETS`, `_to_3d` and the windowed demosaic.
- `BayerArrays` and `FastBayer`: the two output classes, including their demosaic caches.
- `Shading`: `channels_from_bayer_array` and `lst_from_channels`.
- `Matrix3`: a closed-form 3×3 inverse.
- `Binning` and `Unmixing`: `bin`, the arithmetic of `load_raw_image_and_bin`, and the unmixing pipeline.
- `MakerNote`: `parse_maker_note` and `kv_to_string`.

Helper modules: `Results` (error results), `Bits` (shifts and masks on naturals), `Decimal` (printing and parsing integers) and `Grids` (rectangular `seq<seq<_>>` arrays).

Arrays are immutable rectangular sequences. Decoders and geometry use unbounded integers. Where NumPy's `uint8` or `uint16` wrap-around matters, it is written out explicitly (`% 256`, `Wrap16`). Shading and unmixing work over exact `real`. Every NumPy exception the modelled code can raise is an `Err` result. In the fast demosaic, broadcasting is modelled slice by slice: an axis of length 1 stretches and any other mismatch raises, as in NumPy. The objects' `flush` returns the state it leaves behind together with its result, whether or not it raised.

Three places where this model follows the code rather than its comments or documentation:

- The lens-shading table has `r // 64 + 1` cells per axis, not the ceiling of `r / 64` (`TableSizeVersusCeiling`).
- The final `[::-1, :, :]` reverses the channel axis of the `(4, lw, lh)` array, not its rows (`LstReversesChannels`).
- The first `pad(16, 16)` doctest in `mo_stub.py` claims `128x112`; the code gives `112x112` (`PadExamples`).

The central-colour window of `central_colour` is also modelled as written. Its row stop `w // 2 + w * 5 // 9` overshoots the image and is clamped by slicing. Because the row window reaches the last row for most heights, it is not a centred window (`RowWindowReachesEdge`).

## Model

| member | source | states |
|---|---|---|
| Resolution.Pad | CRA_compensation/picam_raw_analysis/mo_stub.py:22-40 | fails exactly when a block size is zero; for positive block sizes each side becomes the smallest multiple of the block that is at least the input |
| Resolution.PadDefault | CRA_compensation/picam_raw_analysis/mo_stub.py:22-40 | with the default 32×16 blocks the width is a multiple of 32 and the height a multiple of 16, each less than one block above the input |
| Resolution.RoundUpIdempotent | CRA_compensation/picam_raw_analysis/mo_stub.py:38-39 | rounding an already rounded side up again changes nothing |
| Resolution.PadIdempotent | CRA_compensation/picam_raw_analysis/mo_stub.py:37-40 | padding a padded resolution again changes nothing |
| Resolution.PadExamples | CRA_compensation/picam_raw_analysis/mo_stub.py:30-35 | 1920x1080 pads to 1920x1088; 100x100 pads with 16x16 blocks to 112x112, not to the 128x112 of the first doctest line |
| Resolution.Transpose | CRA_compensation/picam_raw_analysis/mo_stub.py:42-52 | width and height are exchanged |
| Resolution.TransposeInvolution | CRA_compensation/picam_raw_analysis/mo_stub.py:42-52 | transposing twice gives back the resolution |
| Resolution.PadTranspose | CRA_compensation/picam_raw_analysis/mo_stub.py:37-52 | padding a transposed resolution with swapped block sizes is the transpose of padding it |
| Resolution.ToString | CRA_compensation/picam_raw_analysis/mo_stub.py:54-55 | the text holds the separating `x` |
| Resolution.ToStringRoundTrip | CRA_compensation/picam_raw_analysis/mo_stub.py:54-55 | reading `<width>x<height>` back gives the original resolution, negative sides included |
| Decimal.ParseIntToString | CRA_compensation/picam_raw_analysis/mo_stub.py:55 | the `%d` rendering of every integer parses back to that integer |
| RawGeometry.RawResolution | CRA_compensation/picam_raw_analysis/picamera_array.py:69-81 | the width is rounded up to a multiple of 32, or of 16 for the splitter, and the height to a multiple of 16; each is at least the input and less than one block above it |
| RawGeometry.RawResolutionIdempotent | CRA_compensation/picam_raw_analysis/picamera_array.py:69-81 | rounding twice equals rounding once |
| RawGeometry.PadAgreesWithRawResolution | CRA_compensation/picam_raw_analysis/picamera_array.py:75-81 | `pad()` with its defaults and `raw_resolution` without the splitter agree on every size |
| RawGeometry.MotionArrayShape | CRA_compensation/picam_raw_analysis/picamera_array.py:775-780 | succeeds exactly when the height is positive and the buffer is a whole number of frames of `((w+15)//16+1) × ((h+15)//16)` four-byte records; the column count covers the width plus one spare column and the row count covers the height |
| RawGeometry.CropShape | CRA_compensation/picam_raw_analysis/picamera_array.py:467-469 | the crop is `width*5//4` bytes wide and `height` rows high |
| RawGeometry.StrideShape | CRA_compensation/picam_raw_analysis/picamera_array.py:470-473 | the stride is the least 32×16-padded shape of the padded rows: its width is a multiple of 32 at or above `((w+pr)*5+3)//4` and less than 32 above it, which holds the row's 10-bit samples at 5 bytes per 4; its height is a multiple of 16 at or above `h+pd` and less than 16 above it |
| RawGeometry.CropWidthResidue | CRA_compensation/picam_raw_analysis/picamera_array.py:467-469 | the packed crop width `width*5//4` has `width//4` whole 5-byte groups and `width%4` bytes over, so it never ends in a 4-byte partial group |
| RawGeometry.CropInsideStride | CRA_compensation/picam_raw_analysis/picamera_array.py:467-474 | the crop fits inside the stride, so the slice never runs short |
| RawGeometry.SensorOffset | CRA_compensation/picam_raw_analysis/picamera_array.py:432-453 | an offset exists exactly when the upper-cased revision is `OV5647` or `IMX219` and the mode is 0 to 7; every offset lies between 445440 and 10270208 |
| RawGeometry.SensorOffsetTable | CRA_compensation/picam_raw_analysis/picamera_array.py:432-453 | all sixteen table entries, for both sensors and modes 0 to 7 |
| RawGeometry.FullFrameOffsetLargest | CRA_compensation/picam_raw_analysis/picamera_array.py:432-453 | modes 0, 2 and 3 share one offset, and no mode of the same sensor has a larger one |
| RawGeometry.SensorOffsetCaseInsensitive | CRA_compensation/picam_raw_analysis/picamera_array.py:453 | revisions differing only in letter case get the same offset |
| RawGeometry.SensorOffsetExamples | CRA_compensation/picam_raw_analysis/picamera_array.py:432-453 | `imx219` mode 0 is 10270208, OV5647 mode 7 is 445440, and an unknown sensor has no offset |
| Buffers.BytesToYuv | CRA_compensation/picam_raw_analysis/picamera_array.py:84-113 | fails exactly when the length is not `fw*fh + 2*(fw/2)*(fh/2)`; otherwise the image has the requested height and width |
| Buffers.YuvChromaReplicated | CRA_compensation/picam_raw_analysis/picamera_array.py:102-111 | every pixel carries the U and V of the top-left pixel of its 2×2 square |
| Buffers.YuvPixelFromPlanes | CRA_compensation/picam_raw_analysis/picamera_array.py:96-111 | pixel `(r, c)` of a concatenated Y, U, V buffer is `Y[r][c]` with `U[r/2][c/2]` and `V[r/2][c/2]` |
| Buffers.YuvRoundTrip | CRA_compensation/picam_raw_analysis/picamera_array.py:92-113 | decoding the concatenation of full-stride Y, U and V planes gives the cropped, chroma-replicated image of those planes |
| Buffers.BytesToRgb | CRA_compensation/picam_raw_analysis/picamera_array.py:116-131 | succeeds exactly when the length matches the 32-rounded or the 16-rounded stride; the image has the requested size |
| Buffers.DecodeEncodeRgb | CRA_compensation/picam_raw_analysis/picamera_array.py:129-131 | decoding the row-major bytes of a full-stride image gives that image cropped |
| Buffers.EncodeRgbAt | CRA_compensation/picam_raw_analysis/picamera_array.py:130-131 | byte `(r*fw + c)*3 + k` is channel `k` of pixel `(r, c)` |
| Buffers.StrideFrameSizes | CRA_compensation/picam_raw_analysis/picamera_array.py:121-126 | the retry with the splitter changes only the width, and the two candidate lengths coincide only when the widths do or the height is zero |
| Buffers.RgbRoundTrip | CRA_compensation/picam_raw_analysis/picamera_array.py:120-131 | bytes of an image at either stride decode to the cropped image |
| Unpack10.GroupValue | CRA_compensation/picam_raw_analysis/picamera_array.py:483-485 | a sample is four times its high byte plus its two low bits, so it is below 1024 |
| Unpack10.ShiftedLowBits | CRA_compensation/picam_raw_analysis/picamera_array.py:483-485 | the source's shift-left, shift-right and mask pick out exactly the two low bits of sample `p` |
| Unpack10.DataToArray | CRA_compensation/picam_raw_analysis/picamera_array.py:477-489 | succeeds exactly when the row width is a multiple of 5; the output is `cols*4/5` wide, every value is below 1024, and every row decodes its byte row |
| Unpack10.UnpackDecodes | CRA_compensation/picam_raw_analysis/picamera_array.py:483-489 | each 5-byte group of a row decodes into the 4 samples at the group's position |
| Unpack10.UnpackAt | CRA_compensation/picam_raw_analysis/picamera_array.py:483-489 | sample `4g + p` is `4*b[5g+p]` plus bits `6-2p` and `7-2p` of byte `5g+4` |
| Unpack10.DecodedTenBit | CRA_compensation/picam_raw_analysis/picamera_array.py:483-489 | a decoded row has a multiple of 4 samples, all 10-bit |
| Unpack10.UnpackPackRow | CRA_compensation/picam_raw_analysis/picamera_array.py:483-489 | unpacking the packed form of 10-bit samples gives them back |
| Unpack10.PackUnpackRow | CRA_compensation/picam_raw_analysis/picamera_array.py:483-489 | packing the unpacked samples of any row gives back its bytes, so unpacking is injective |
| Unpack10.PackDecoded | CRA_compensation/picam_raw_analysis/picamera_array.py:483-489 | any samples that decode a row pack back into that row |
| Unpack10.DataToArrayPackGrid | CRA_compensation/picam_raw_analysis/picamera_array.py:477-489 | decoding the packed grid of a 10-bit image gives the image |
| Bayer.BayerOffsets | CRA_compensation/picam_raw_analysis/picamera_array.py:399-404 | there is an offset table for exactly the orders 0 to 3, each of four sites |
| Bayer.OffsetsPermutation | CRA_compensation/picam_raw_analysis/picamera_array.py:399-404 | for every order the four sites are distinct and cover the 2×2 tile |
| Bayer.To3d | CRA_compensation/picam_raw_analysis/picamera_array.py:418-427 | for a known order each pixel sits in the one plane its site selects, and the other two planes are zero |
| Bayer.ToPlanesAt | CRA_compensation/picam_raw_analysis/picamera_array.py:423-426 | the four slice assignments together leave the value in the selected plane and zero elsewhere |
| Bayer.PlanesSumToRaw | CRA_compensation/picam_raw_analysis/picamera_array.py:418-427 | summing the three planes of a pixel gives back the raw sample |
| Bayer.DemosaicPlanes | CRA_compensation/picam_raw_analysis/picamera_array.py:510-558 | fails exactly for an unknown order; each output is the `uint16` same-colour sum in the zero-padded 3×3 window, floor-divided by the `uint8` same-colour count; on 10-bit planes of at least 2×2 that count is 1 to 9 and the output is the exact floor of the window sum over it |
| Bayer.AverageIsMean | CRA_compensation/picam_raw_analysis/picamera_array.py:546-557 | on 10-bit planes of at least 2×2 neither the `uint16` sum nor the `uint8` count wraps and the count is never zero, so the windowed average is the floor of the mean |
| Bayer.SiteCountPositive | CRA_compensation/picam_raw_analysis/picamera_array.py:510-557 | on images of at least 2×2 every window holds between 1 and 9 samples of every colour, so nothing is divided by zero |
| Bayer.WindowSumBound | CRA_compensation/picam_raw_analysis/picamera_array.py:546-557 | a window sum of 10-bit samples is at most 1023 per counted sample |
| Bayer.DemosaicMean | CRA_compensation/picam_raw_analysis/picamera_array.py:510-558 | for 10-bit data the output is the exact floor of the window mean and stays below 1024 |
| Bayer.DemosaicFlatField | CRA_compensation/picam_raw_analysis/picamera_array.py:494-558 | a uniform raw frame demosaics to that grey in every pixel |
| BayerArrays.Tail | CRA_compensation/picam_raw_analysis/picamera_array.py:454 | the tail slice keeps the last `offset` bytes, or the whole buffer when it is shorter |
| BayerArrays.FlattenReshape | CRA_compensation/picam_raw_analysis/picamera_array.py:474 | reshaping the pixel bytes into rows loses nothing |
| BayerArrays.LocateRaw | CRA_compensation/picam_raw_analysis/picamera_array.py:429-474 | succeeds exactly when the sensor mode is known, the tail starts with `BRCM` and the pixel bytes fill the stride shape; the result is the crop of that stride |
| BayerArrays.New | CRA_compensation/picam_raw_analysis/picamera_array.py:406-412 | construction succeeds exactly for 2 or 3 output dimensions and starts with no header and no cached demosaic |
| BayerArrays.Flush | CRA_compensation/picam_raw_analysis/picamera_array.py:429-491 | succeeds exactly when the raw data is found, the crop width unpacks and a 3-D output has a known order; it always clears the cache, replaces the header exactly when the magic and the header bytes are there, and after unpacking holds the crop size and the 2-D array unless the expansion succeeded; when the raw data is not found, or the row fails before the array is replaced, the previous array and size stay |
| BayerArrays.FailedExpansionDemosaicFails | CRA_compensation/picam_raw_analysis/picamera_array.py:486-491 | a 3-D flush with an unknown Bayer order fails, yet keeps the new header, and the next demosaic fails instead of reusing the earlier capture |
| BayerArrays.Demosaic | CRA_compensation/picam_raw_analysis/picamera_array.py:494-559 | the only change to the object is the cached result |
| BayerArrays.NewAndFlushCoherent | CRA_compensation/picam_raw_analysis/picamera_array.py:410-431 | construction and flush, failed or not, leave no stale cache |
| BayerArrays.DemosaicCacheTransparent | CRA_compensation/picam_raw_analysis/picamera_array.py:503-559 | on a coherent object the cached demosaic equals a fresh one, and the object stays coherent |
| BayerArrays.DemosaicIgnoresOutputDims | CRA_compensation/picam_raw_analysis/picamera_array.py:490-508 | 2-D and 3-D output objects flushed from the same buffer demosaic identically |
| FastBayer.FastSample | CRA_compensation/picam_raw_analysis/picamera_array.py:668-693 | a sample is the 10-bit value shifted left by `shift`, divided by 4 and kept to 8 bits; beyond shift 3 only the high byte is shifted |
| FastBayer.SampleShift0 | CRA_compensation/picam_raw_analysis/picamera_array.py:669-671 | with shift 0 the sample is the high byte |
| FastBayer.SampleShift1 | CRA_compensation/picam_raw_analysis/picamera_array.py:683-685 | the shift-1 bit arithmetic equals the 10-bit value halved, mod 256 |
| FastBayer.SampleShift2 | CRA_compensation/picam_raw_analysis/picamera_array.py:680-682 | the shift-2 bit arithmetic equals the 10-bit value mod 256 |
| FastBayer.SampleShift3 | CRA_compensation/picam_raw_analysis/picamera_array.py:686-692 | the shift-3 bit arithmetic equals twice the 10-bit value, mod 256 |
| FastBayer.GreenAverage | CRA_compensation/picam_raw_analysis/picamera_array.py:706-709 | green is the sum of the two halved greens and cannot overflow a byte |
| FastBayer.FastDemosaicFrame | CRA_compensation/picam_raw_analysis/picamera_array.py:668-711 | succeeds exactly when every slice broadcasts: an even row count or a single row, and whole 5-byte groups, or rows of 6 to 8 bytes, or 9 bytes when low bits are added, or a 4-byte partial group when they are not; the image is `rows//2` high and twice the length of the `0::5` slice wide |
| FastBayer.SliceLength | CRA_compensation/picam_raw_analysis/picamera_array.py:671 | the slice `k::5` of a row holds exactly the columns below `cols` at position k of a group |
| FastBayer.SliceLengthSplit | CRA_compensation/picam_raw_analysis/picamera_array.py:671 | a row of `5q+m` bytes has `q+1` columns in each of its first m slices and q in the others |
| FastBayer.FastAcceptedShapes | CRA_compensation/picam_raw_analysis/picamera_array.py:668-709 | the slice-by-slice broadcast conditions hold exactly for the row and column counts listed above |
| FastBayer.FastShapeIgnoresShift | CRA_compensation/picam_raw_analysis/picamera_array.py:659-709 | for rows not ending in a 4-byte partial group, which includes every flushed row, acceptance does not depend on the shift |
| FastBayer.FastAgreesWithDataToArray | CRA_compensation/picam_raw_analysis/picamera_array.py:694-709 | for shifts up to 3 each output pixel's red, blue and green are the 8-bit views of the samples `data_to_array` decodes at the matching tile sites |
| FastBayer.FastRed | CRA_compensation/picam_raw_analysis/picamera_array.py:694-703 | red comes from the sample at odd row, even column |
| FastBayer.FastBlue | CRA_compensation/picam_raw_analysis/picamera_array.py:697-705 | blue comes from the sample at even row, odd column |
| FastBayer.FastGreen | CRA_compensation/picam_raw_analysis/picamera_array.py:695-709 | green is the halved sum of the two diagonal green samples |
| FastBayer.FrameAt | CRA_compensation/picam_raw_analysis/picamera_array.py:694-709 | on whole groups output pixel (r, c) takes red from slice (1, 0), blue from (0, 1) and green from the halves of (0, 0) and (1, 1) |
| FastBayer.SampleAgrees | CRA_compensation/picam_raw_analysis/picamera_array.py:668-693 | on whole groups slice (i, j) at output (r, c) is the shifted 8-bit view of raw pixel (2r+i, 2c+j) that `data_to_array` decodes |
| FastBayer.SampleIsEightBits | CRA_compensation/picam_raw_analysis/picamera_array.py:668-693 | a fast sample is the selected 8 bits of the 10-bit value its two bytes encode, and at shift 0 the low-bit byte is not read |
| FastBayer.FastLayoutIsOrder1 | CRA_compensation/picam_raw_analysis/picamera_array.py:694-697 | the fast path's fixed layout is the layout of Bayer order 1 |
| FastBayer.New | CRA_compensation/picam_raw_analysis/picamera_array.py:406-412 | construction checks the output dimensions as for the full array |
| FastBayer.Flush | CRA_compensation/picam_raw_analysis/picamera_array.py:429-475 | succeeds exactly when the raw data is found, keeping the located packed bytes unconverted; it always clears the cache and replaces the header exactly when the magic and header bytes are there; on failure the previous bytes and shape stay |
| FastBayer.Demosaic | CRA_compensation/picam_raw_analysis/picamera_array.py:659-711 | the object keeps its bytes and remembers the requested shift and the result |
| FastBayer.DemosaicCacheTransparent | CRA_compensation/picam_raw_analysis/picamera_array.py:659-666 | on a coherent object the result equals a fresh demosaic at the requested shift, even after another shift was cached |
| FastBayer.FlushCoherent | CRA_compensation/picam_raw_analysis/picamera_array.py:429-431 | after a flush, failed or not, the object has no stale cache |
| Shading.PlaneSum | CRA_compensation/picam_raw_analysis/lst_from_raw_white_image.py:34 | the plane sum is stored as `uint16`, and is exact when it fits |
| Shading.ChannelsFromBayer | CRA_compensation/picam_raw_analysis/lst_from_raw_white_image.py:28-36 | succeeds exactly when each side is even or 1; the result is the four phase channels |
| Shading.Channel | CRA_compensation/picam_raw_analysis/lst_from_raw_white_image.py:30-34 | channel `i` is `(h/2) × (w/2)`, and cell `(y, x)` is the plane sum of pixel `(2y + i/2, 2x + i%2)` |
| Shading.PixelFeedsOneCell | CRA_compensation/picam_raw_analysis/lst_from_raw_white_image.py:30-34 | on even sides every pixel feeds exactly one channel cell, in both directions |
| Shading.ChannelsOfExpanded | CRA_compensation/picam_raw_analysis/lst_from_raw_white_image.py:28-36 | the channels of a plane-expanded 16-bit frame are its raw samples by phase |
| Shading.TableSize | CRA_compensation/picam_raw_analysis/lst_from_raw_white_image.py:40-42 | a channel of `n` cells gets the least `m ≥ 1` with `32(m-1) ≤ n < 32m` table cells |
| Shading.TableSizeVersusCeiling | CRA_compensation/picam_raw_analysis/lst_from_raw_white_image.py:40-42 | the size equals the ceiling of `2n/64` except when `2n` is a multiple of 64, where it is one more |
| Shading.EdgePad | CRA_compensation/picam_raw_analysis/lst_from_raw_white_image.py:58-60 | fails exactly when an empty side would need padding; the padded channel has the requested shape, keeps the channel and repeats its last row and column |
| Shading.EdgePadClamps | CRA_compensation/picam_raw_analysis/lst_from_raw_white_image.py:58-60 | a padded cell is the channel cell at the index clamped to the channel |
| Shading.SampleInside | CRA_compensation/picam_raw_analysis/lst_from_raw_white_image.py:67-69 | every sampled index `32p + 16 + d` lies inside the padded channel |
| Shading.Cells | CRA_compensation/picam_raw_analysis/lst_from_raw_white_image.py:62-70 | there is one box mean per table cell |
| Shading.BoxMeanUniform | CRA_compensation/picam_raw_analysis/lst_from_raw_white_image.py:64-70 | with signed arithmetic a box of equal samples `v` has mean `v - 64` |
| Shading.BoxMeanWrapsBelowBlack | CRA_compensation/picam_raw_analysis/lst_from_raw_white_image.py:69 | as written, a box of samples below 64 has mean `v - 64 + 65536`, which differs from the signed mean |
| Shading.BoxTotalAgrees | CRA_compensation/picam_raw_analysis/lst_from_raw_white_image.py:69 | when every sample is at least 64 the wrapped and signed box sums agree |
| Shading.FlatBoxCell | CRA_compensation/picam_raw_analysis/lst_from_raw_white_image.py:58-70 | a cell whose nine clamped samples are equal gets that sample less the black level |
| Shading.TableMax | CRA_compensation/picam_raw_analysis/lst_from_raw_white_image.py:74 | the maximum bounds every cell and is attained |
| Shading.Normalise | CRA_compensation/picam_raw_analysis/lst_from_raw_white_image.py:74 | fails exactly when the maximum is zero; with a positive maximum every cell is at most 1 and some cell is exactly 1; with a negative maximum every cell is at least 1 |
| Shading.NormalisedBounds | CRA_compensation/picam_raw_analysis/lst_from_raw_white_image.py:74 | dividing by the maximum gives the same bounds for any grid |
| Shading.Gain | CRA_compensation/picam_raw_analysis/lst_from_raw_white_image.py:83-86 | the gain lies in [32, 255]; it is 32 for a negative shading, 255 for zero, and otherwise the truncation of `32/s` clipped to [32, 255] |
| Shading.GainAtLeastOne | CRA_compensation/picam_raw_analysis/lst_from_raw_white_image.py:83-86 | a shading of at least 1 gets unity gain 32 |
| Shading.GainAntitone | CRA_compensation/picam_raw_analysis/lst_from_raw_white_image.py:83-86 | a brighter positive cell never gets a larger gain |
| Shading.GainTable | CRA_compensation/picam_raw_analysis/lst_from_raw_white_image.py:83-86 | each table entry is the gain of its normalised cell |
| Shading.ChannelTable | CRA_compensation/picam_raw_analysis/lst_from_raw_white_image.py:46-86 | a channel table has the table size and entries in [32, 255]; the only errors are an empty channel and a channel whose largest box mean is zero |
| Shading.ChannelTableAt | CRA_compensation/picam_raw_analysis/lst_from_raw_white_image.py:62-86 | each entry is the gain of its box mean divided by the channel's maximum box mean |
| Shading.Reverse | CRA_compensation/picam_raw_analysis/lst_from_raw_white_image.py:87 | entry `k` of the reversal is entry `n-1-k` of the input |
| Shading.ReverseTwice | CRA_compensation/picam_raw_analysis/lst_from_raw_white_image.py:87 | reversing twice gives back the tables |
| Shading.LstFrom | CRA_compensation/picam_raw_analysis/lst_from_raw_white_image.py:38-87 | succeeds exactly when every channel's table does; the result is the per-channel tables in reverse channel order |
| Shading.LstReversesChannels | CRA_compensation/picam_raw_analysis/lst_from_raw_white_image.py:87 | table `k` of the result is the table of channel `n-1-k`, at full table size |
| Shading.UniformChannelUnityGain | CRA_compensation/picam_raw_analysis/lst_from_raw_white_image.py:64-86 | a uniform channel above the black level gets a table of 32 everywhere |
| Shading.UniformLstUnityGain | CRA_compensation/picam_raw_analysis/lst_from_raw_white_image.py:38-87 | a uniform white image above the black level gets unity gain in every channel and cell |
| Shading.TwoCellTable | CRA_compensation/picam_raw_analysis/lst_from_raw_white_image.py:74-86 | a two-cell table is the gains of each cell over the larger cell |
| Shading.DarkCellSaturatesTable | CRA_compensation/picam_raw_analysis/lst_from_raw_white_image.py:69-86 | as written, a dark corner of zeros beside a cell at 128 gives gains 32 and 255; with signed arithmetic both gains are 32 |
| Matrix3.Inverse | CRA_compensation/picam_raw_analysis/unmixing_matrix.py:88 | an inverse exists exactly when the determinant is non-zero, and it is a two-sided inverse |
| Matrix3.InverseRight | CRA_compensation/picam_raw_analysis/unmixing_matrix.py:88 | the matrix times its adjugate over its determinant is the identity |
| Matrix3.InverseLeft | CRA_compensation/picam_raw_analysis/unmixing_matrix.py:88 | the adjugate over the determinant times the matrix is the identity |
| Matrix3.MulAssoc | CRA_compensation/picam_raw_analysis/unmixing_matrix.py:92-94 | matrix products associate |
| Matrix3.MulVecMul | CRA_compensation/picam_raw_analysis/unmixing_matrix.py:114 | applying a product matrix to a pixel equals applying its factors in turn |
| Binning.Bin | CRA_compensation/picam_raw_analysis/unmixing_matrix.py:19-28 | fails exactly for block size 0; otherwise the result is `(rows/b) × (cols/b)` and each value is the mean of its block |
| Binning.BinMeanIsBlockMean | CRA_compensation/picam_raw_analysis/unmixing_matrix.py:22-28 | binned value `(i, j)` is the mean of the `b × b` block at `(b*i, b*j)`, which lies inside the image |
| Binning.BlockMeanConstant | CRA_compensation/picam_raw_analysis/unmixing_matrix.py:28 | the mean of a constant block is the constant |
| Binning.BinConstant | CRA_compensation/picam_raw_analysis/unmixing_matrix.py:28 | binning a constant image gives the constant everywhere |
| Binning.BinIgnoresRemainder | CRA_compensation/picam_raw_analysis/unmixing_matrix.py:25-27 | images that agree on the whole blocks bin identically, so the trailing rows and columns are dropped |
| Binning.BinUnit | CRA_compensation/picam_raw_analysis/unmixing_matrix.py:19-28 | binning by 1 gives the image back |
| Binning.LoadAndBin | CRA_compensation/picam_raw_analysis/unmixing_matrix.py:30-37 | each block is binned by 16 and then rebalanced: red and blue times 4, green times 2, then 64 subtracted |
| Binning.LoadedBlock | CRA_compensation/picam_raw_analysis/unmixing_matrix.py:33-36 | a loaded value is the rebalanced mean of its 16×16 block |
| Binning.TileSum | CRA_compensation/picam_raw_analysis/unmixing_matrix.py:34-35 | for every Bayer order a 2×2 tile holds one red, two greens and one blue, which the weights 4, 2, 4 compensate |
| Binning.TiledLoad | CRA_compensation/picam_raw_analysis/unmixing_matrix.py:33-36 | an image tiled by a balanced 2×2 tile of value `w` loads as `w - 64` in all channels |
| Binning.ExpandedLoadsFlat | CRA_compensation/picam_raw_analysis/unmixing_matrix.py:30-37 | the plane-expanded form of a uniform frame `v` loads as `v - 64` in all channels |
| Binning.FlatFrameLoadsFlat | CRA_compensation/picam_raw_analysis/unmixing_matrix.py:30-37 | a uniform raw frame `v` expanded by `_to_3d` loads as the grey `v - 64` |
| Unmixing.Ratio | CRA_compensation/picam_raw_analysis/unmixing_matrix.py:59 | channel-wise, the ratio times the white sample is the response |
| Unmixing.Crosstalk | CRA_compensation/picam_raw_analysis/unmixing_matrix.py:54-59 | succeeds exactly when the four images share the shape and white has no zero channel; the error says which; each block holds the R, G, B responses as columns, divided by white |
| Unmixing.CrosstalkEntry | CRA_compensation/picam_raw_analysis/unmixing_matrix.py:59 | entry `(c, k)` times white channel `c` is channel `c` of run `k` |
| Unmixing.InvertField | CRA_compensation/picam_raw_analysis/unmixing_matrix.py:84-88 | succeeds exactly when every block is invertible, and then each block is a two-sided inverse; its `Singular` error stands for the `LinAlgError` that `np.linalg.inv` raises on a singular block |
| Unmixing.WindowInside | CRA_compensation/picam_raw_analysis/unmixing_matrix.py:64 | both clamped bounds of the centre window lie inside the image and do not run backwards |
| Unmixing.RowWindowNonEmpty | CRA_compensation/picam_raw_analysis/unmixing_matrix.py:64 | the row window is non-empty exactly when the image has at least 2 rows |
| Unmixing.ColWindowNonEmpty | CRA_compensation/picam_raw_analysis/unmixing_matrix.py:64 | the column window is empty exactly for widths 0, 1, 3, 5 and 7 |
| Unmixing.RowWindowReachesEdge | CRA_compensation/picam_raw_analysis/unmixing_matrix.py:64 | the row window runs to the last row for every height except 1, 3, 5 and 7 |
| Unmixing.CentralColour | CRA_compensation/picam_raw_analysis/unmixing_matrix.py:61-64 | succeeds exactly when the window is non-empty, and then the value is the window mean: times the window's pixel count it gives the sum of the window's pixels |
| Unmixing.MeanOfConstant | CRA_compensation/picam_raw_analysis/unmixing_matrix.py:64 | the mean of a constant window is the constant |
| Unmixing.CentralColourConstant | CRA_compensation/picam_raw_analysis/unmixing_matrix.py:61-64 | an image constant on the window has that constant as its central colour |
| Unmixing.CentralColourWindowOnly | CRA_compensation/picam_raw_analysis/unmixing_matrix.py:64 | pixels outside the window do not affect the central colour |
| Unmixing.RatioImage | CRA_compensation/picam_raw_analysis/unmixing_matrix.py:90 | each pixel of `cal[k]/cal['W']` is the channel-wise ratio |
| Unmixing.CentreResponse | CRA_compensation/picam_raw_analysis/unmixing_matrix.py:90 | succeeds exactly when the window is non-empty; row `k` is the central colour of run `k` over white |
| Unmixing.Project | CRA_compensation/picam_raw_analysis/unmixing_matrix.py:92-94 | each block becomes `centralᵀ · inv` |
| Unmixing.ProjectEntry | CRA_compensation/picam_raw_analysis/unmixing_matrix.py:92-94 | entry `(c, b)` is `Σ_a central[a][c] * inv[a][b]` |
| Unmixing.Compensation | CRA_compensation/picam_raw_analysis/unmixing_matrix.py:83-94 | succeeds exactly when shapes match, white is non-zero, every block inverts and, for "centre" or "center", the window is non-empty |
| Unmixing.UnmixingMatrices | CRA_compensation/picam_raw_analysis/unmixing_matrix.py:66-97 | the errors are those of the compensation; with no smoothing the matrices are the compensation unchanged, otherwise the smoothing of it |
| Unmixing.RgbTargetInverts | CRA_compensation/picam_raw_analysis/unmixing_matrix.py:84-89 | with any target other than "centre"/"center" each matrix inverts its block's crosstalk |
| Unmixing.CentreTargetRecentres | CRA_compensation/picam_raw_analysis/unmixing_matrix.py:89-94 | with the centre target each matrix times its crosstalk is the transposed centre response |
| Unmixing.UniformCentre | CRA_compensation/picam_raw_analysis/unmixing_matrix.py:90 | uniform calibration images give the uniform ratio as centre response |
| Unmixing.UniformCalibrationIsIdentity | CRA_compensation/picam_raw_analysis/unmixing_matrix.py:83-94 | with uniform calibration images the centre target yields the identity at every block |
| Unmixing.RatioOfSum | CRA_compensation/picam_raw_analysis/unmixing_matrix.py:59 | when R + G + B equals W, the three ratios add up to one in every channel |
| Unmixing.AdditiveWhiteIsFixed | CRA_compensation/picam_raw_analysis/unmixing_matrix.py:54-88 | when R + G + B equals W at a block, the rgb matrix maps white `(1, 1, 1)` to itself |
| Unmixing.UnmixImage | CRA_compensation/picam_raw_analysis/unmixing_matrix.py:114 | fails exactly when the field's shape differs from the image's; otherwise each pixel is its block matrix times the pixel |
| Unmixing.UnmixPixel | CRA_compensation/picam_raw_analysis/unmixing_matrix.py:114 | output channel `a` is `Σ_b C[a][b] * img[b]` |
| Unmixing.UnmixIdentity | CRA_compensation/picam_raw_analysis/unmixing_matrix.py:114 | an identity field returns the image unchanged |
| Unmixing.UnmixUndoesMixing | CRA_compensation/picam_raw_analysis/unmixing_matrix.py:110-114 | matrices that invert the mixing recover the scene from the mixed image |
| Unmixing.ColourUnmixImage | CRA_compensation/picam_raw_analysis/unmixing_matrix.py:99-114 | succeeds exactly when the matrices do and match the image's shape; their error is passed through |
| Unmixing.ColourUnmixRecoversScene | CRA_compensation/picam_raw_analysis/unmixing_matrix.py:99-114 | with the rgb target and no smoothing, an image mixed by the crosstalk unmixes to the scene |
| Unmixing.ColourUnmixRecentres | CRA_compensation/picam_raw_analysis/unmixing_matrix.py:99-114 | with the centre target each pixel comes out as the centre of the sensor records its scene colour |
| MakerNote.Split | CRA_compensation/picam_raw_analysis/dump_exif.py:23 | splitting on one character always yields at least one piece |
| MakerNote.SplitCount | CRA_compensation/picam_raw_analysis/dump_exif.py:23 | there is one more piece than separators |
| MakerNote.SplitClean | CRA_compensation/picam_raw_analysis/dump_exif.py:23 | no piece contains the separator |
| MakerNote.SplitJoinBack | CRA_compensation/picam_raw_analysis/dump_exif.py:23 | joining the pieces with the separator gives back the text |
| MakerNote.SplitJoin | CRA_compensation/picam_raw_analysis/dump_exif.py:23 | splitting the join of separator-free pieces gives back the pieces |
| MakerNote.SplitFindsSeparator | CRA_compensation/picam_raw_analysis/dump_exif.py:27-28 | a token contains `=` exactly when splitting it gives at least two pieces |
| MakerNote.ValueOf | CRA_compensation/picam_raw_analysis/dump_exif.py:28 | an entry token is its key, `=`, and its value, neither containing `=` |
| MakerNote.Step | CRA_compensation/picam_raw_analysis/dump_exif.py:27-31 | an entry token succeeds exactly when it holds one `=`, a continuation exactly when there is a current key; the error names the token |
| MakerNote.EntryStep | CRA_compensation/picam_raw_analysis/dump_exif.py:28-29 | an entry makes its key current and sets its value, overwriting any earlier one |
| MakerNote.SingleEntryContinues | CRA_compensation/picam_raw_analysis/dump_exif.py:30-31 | a continuation appends one space and the token to the current value |
| MakerNote.ParseMakerNote | CRA_compensation/picam_raw_analysis/dump_exif.py:19-32 | succeeds exactly when the first space-separated token is an entry and every entry holds one `=` |
| MakerNote.RunOk | CRA_compensation/picam_raw_analysis/dump_exif.py:23-31 | the loop succeeds exactly when every token splits and the first one has a key to attach to |
| MakerNote.RunFirstError | CRA_compensation/picam_raw_analysis/dump_exif.py:27-31 | the loop stops with the error of its first bad token |
| MakerNote.ParseFailsAtFirstBadToken | CRA_compensation/picam_raw_analysis/dump_exif.py:22-31 | a note fails with the first token that has two `=` or, at the start, no key |
| MakerNote.EmptyNoteFails | CRA_compensation/picam_raw_analysis/dump_exif.py:22-31 | an empty note is one empty token with no current key, an error |
| MakerNote.RunSplit | CRA_compensation/picam_raw_analysis/dump_exif.py:23-31 | a successful run over two token lists is the run over the first continued by the run over the second |
| MakerNote.Continue | CRA_compensation/picam_raw_analysis/dump_exif.py:30-31 | continuation tokens extend the current value with single spaces |
| MakerNote.Untouched | CRA_compensation/picam_raw_analysis/dump_exif.py:27-31 | a key that is neither re-entered nor continued keeps its value |
| MakerNote.UpToNextEntry | CRA_compensation/picam_raw_analysis/dump_exif.py:27-31 | after an entry and its continuations the value is the entry's value joined with them by spaces |
| MakerNote.RunValue | CRA_compensation/picam_raw_analysis/dump_exif.py:23-31 | the last entry for a key determines its final value: its text up to the next entry |
| MakerNote.ValueIsTextToNextEntry | CRA_compensation/picam_raw_analysis/dump_exif.py:19-32 | the value of a key's last entry is the original text from after its `=` to the next `key=` token |
| MakerNote.RunKeys | CRA_compensation/picam_raw_analysis/dump_exif.py:27-29 | the keys after a run are the earlier keys and the keys of its entries |
| MakerNote.KeysKept | CRA_compensation/picam_raw_analysis/dump_exif.py:29-31 | a run never drops a key |
| MakerNote.ParsedKeys | CRA_compensation/picam_raw_analysis/dump_exif.py:19-32 | the keys of a parsed note are exactly the keys of its entry tokens |
| MakerNote.DoubleSpaceKept | CRA_compensation/picam_raw_analysis/dump_exif.py:23-31 | `ev=1  2` parses to `ev` ↦ `1  2`: the empty token between two spaces is a continuation |
| MakerNote.KvToString | CRA_compensation/picam_raw_analysis/dump_exif.py:38-40 | the line is the key right-aligned in 28 columns, never truncated, then `: ` and the value |
| MakerNote.KvReadsBack | CRA_compensation/picam_raw_analysis/dump_exif.py:38-40 | a key of at most 28 characters, with no leading space, reads back with its value from the fixed columns |
| MakerNote.KvLongKeyWhole | CRA_compensation/picam_raw_analysis/dump_exif.py:38-40 | a key of 28 or more characters is printed whole, with no padding |

## Left out

- Camera control, files and serialisation are not modelled: `load_raw_image`, `load_run`, YAML, `argparse`, the CLI blocks and `print`. A raw frame, a header record or a calibration run is a parameter of the model.
- `BroadcomRawHeader` is a record with width, height, right and bottom padding and Bayer order. Its ctypes layout and the 176-byte header offset are not decoded.
- `PiArrayOutput`'s stream plumbing is not modelled: write, truncate and close. A capture is the byte buffer given to `Flush`.
- `PiRGBArray`, `PiYUVArray.rgb_array`, `PiSharpBayerArray` and the analysis outputs are outside the modelled core. They consist of floating-point colour conversion, a SciPy convolution and callbacks.
- The Gaussian smoothing of `colour_unmixing_matrices` is an opaque optional function on the field of matrices.
- Floating point is modelled as exact `real`, so there is no rounding, no `inf` and no `NaN`. Where NumPy would produce `inf` or `NaN`, the model returns an error instead: a zero white sample, an empty central window, and a shading channel whose largest box mean is zero. A block with determinant exactly 0 is the `Singular` error, as `np.linalg.inv` raises `LinAlgError` there. In floating point a nearly singular block may instead invert to very large values; exact arithmetic does not model that.
- Bytes decoding in `parse_maker_note` is not modelled. The maker note is text, so a UTF-8 decoding error does not arise.
- The result dictionary of `parse_maker_note` is a map, so key insertion order is not kept.
- `kv_to_string` takes only string keys and values. Its `format` argument and the `str()` of other values are not modelled.
- The exposure-time computation and the rest of `dump_exif.py` outside the two functions are not modelled.
- NumPy's broadcasting in `colour_unmix_image` and `crosstalk_matrices` is modelled only for equal shapes. Any other shape is a `ShapeMismatch` error, even where NumPy would broadcast a singleton axis.
- Resolution.Pad: its contract describes only positive block sizes. For a negative block size the model computes Python's floor division exactly but states nothing about the result.
- RawGeometry.SensorOffset: the revision is upper-cased for ASCII letters only, while Python's `str.upper()` also maps other letters. For example, `"ımx219".upper()` is `"IMX219"` in Python, but the model reports an unknown sensor.
- BayerArrays.Flush: for packed rows of 6 to 9 bytes the source fails in `data_to_array`'s column-copy loop, after `self.array` has been replaced by a partly filled array. The model keeps the previous array there and states nothing about it, because that partial array depends on the order NumPy raises in.
- FastBayer.Demosaic: negative shifts are not modelled (the shift is a natural number). Depending on the NumPy version, `a << -1` on `uint8` either raises `OverflowError` or gives a platform-dependent value.
- FastBayer.DemosaicCacheTransparent: stated only for flushed shapes. Rows ending in a 4-byte partial group are accepted at shift 0 but not at shifts 1 to 3, so a failed call at a new shift would leave the old result cached under the new shift. A flush never produces such rows.
- `lens_shading` is allocated with `dtype=np.float` (lst_from_raw_white_image.py:45), which NumPy removed in version 1.24. The model assumes an older NumPy, on which this is `float64`; a newer one raises `AttributeError` before any arithmetic.
- Negative bin sizes are not modelled (the block size is a natural number); a block size of 0 is the `ZeroBlockSize` error.

## Findings

| source | as written | input that shows it | evidently intended | confidence | as-written member | corrected member |
|---|---|---|---|---|---|---|
| CRA_compensation/picam_raw_analysis/lst_from_raw_white_image.py:69 | `padded_image_channel[...] - 64` is computed in the channel's `uint16`, so a sample below the black level 64 wraps to `v - 64 + 65536` | a white image whose first 32 columns of a channel are 0 while a cell further on reads 128: the dark cell's box mean becomes 65472, so it becomes the maximum and the bright cell gets gain 255 | the black level is subtracted with signed arithmetic, so the dark cell has mean -64 and every gain is 32 | medium, not executed | Shading.BoxMeanWrapsBelowBlack, Shading.DarkCellSaturatesTable | Shading.BoxMeanUniform, Shading.DarkCellSaturatesTable |

The shading functions take the arithmetic as a parameter: `Uint16Wrap` models the code as written and `Exact` the corrected subtraction. Both tables of `DarkCellSaturatesTable` are stated side by side. `BoxTotalAgrees` shows the two coincide whenever every sample is at least 64.
