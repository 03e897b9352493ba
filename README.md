# agave2 volume loading, modelled in Dafny

This project models the volume-decoding core of agave2, a viewer for microscopy volumes. The core turns a
CZI or OME-TIFF file into an in-memory 16-bit image. It covers four parts:

- **`VolumeDimensions`** (`volume_dimensions.dfy`). This is the record of a volume's extents, axis order,
  voxel sizes, depth and channel names. It models `validate` and two functions:
  - `getPlaneIndex` maps (Z, C, T) to the file's plane number, following the axis order;
  - `getPlaneZCT` maps a plane number back to (Z, C, T).
- **The TIFF reader** (`tiff_reader.dfy`). It models `readTiffDimensions` with its four description dialects:
  - an ImageJ key/value list;
  - a bracketed shape array;
  - OME-XML;
  - none of these, where each directory is one slice.

  It also models `readTiffPlane`, which copies tiles or strips and widens 8-bit samples, and `loadOMETiff`,
  which runs the channel × slice assembly loop.
- **The CZI reader** (`czi_reader.dfy`). It models `readCziDimensions`: the libCZI statistics, the scene
  box and the XML channel list. It also models `readCziPlane`, a row-by-row copy that respects the bitmap
  stride, plus `loadDimensionsCzi` and `loadCzi`.
- **The front end** (`file_reader.dfy`). It models `FileReader` with its process-wide image cache:
  - `loadFromFile`, which dispatches on the lower-cased file extension;
  - `loadFromFile_4D`;
  - `loadFromArray_4D`.

The other files hold shared pieces:
- `text.dfy`: the `std::string` operations the readers use (`find`, `rfind`, `substr`, `compare`, `getline`
  splitting, `tolower`, `to_string`).
- `xml.dfy`: a pugixml-style node tree (`child`, sibling iteration, attributes, the null node).
- `mixed_radix.dfy`: arithmetic about digits in mixed radix.
- `planes.dfy`: the destination buffer. It covers `memcpy` into an offset range, 8→16-bit widening, and the
  channel-major, slice-minor slot layout. Its proofs show that the assembly loops fill the buffer with all
  planes in that order.

The third-party libraries are not modelled as code. They appear as values, as described under "Left out":
- libCZI, libtiff and pugixml become datatypes holding what they would return;
- `std::stoi` and `std::stof` become functions passed in as parameters.

The readers work in place on a destination `array<byte>`. Each one is proved to leave exactly the bytes
that a specification function (`Written`, `Assemble`, `Overwrite`) predicts.

Where the code does something other than what its own comments announce, the model follows the code:
- **Shape arrays.** The comment at fileReaderTIFF.cpp:189 expects a 4-d (C, Z, Y, X) or 5-d (T, C, Z, Y, X)
  shape array. The test `size != 4 || size != 5` on the next lines rejects every shape array
  (`TiffReader.ShapeArrayAlwaysFails`).
- **OME-XML.** The comment at fileReaderTIFF.cpp:227 says the first `Pixels` element found is used. The code
  takes `Pixels` only as a direct child of the document node, and its test for the element is inverted. The
  OME-XML branch therefore never yields a record (`TiffReader.OmeXmlAlwaysFails`).
- **Axis order.** The comment at fileReaderTIFF.cpp:253 lists six orders of length 5 ("XYZCT", "XYZTC",
  "XYCTZ", "XYCZT", "XYTCZ", "XYTZC"). `validate` also accepts shorter strings such as `"XYZ"`
  (`VolumeDims.ValidateAcceptsShortOrder`). With such an order, `getPlaneIndex` wraps `find - 2` in
  `size_t` arithmetic (`VolumeDims.XYZSlots`).
- **CZI buffer size.** Both loaders hand the buffer to `ImageXYZC` as an `IN_MEMORY_BPP` (16-bit) image, next to
  the comment "TODO: convert data to uint16_t pixels if not already" (fileReaderCzi.cpp:335,
  fileReaderTIFF.cpp:506). `loadOMETiff` sizes each plane's slot for 16-bit samples. `loadCzi` sizes it by the
  file's bit depth, `sizeX*sizeY*bitsPerPixel/8` (fileReaderCzi.cpp:296), while `readCziPlane` writes 16-bit
  samples. The model keeps the code's slot for every depth but 8 bits (`CziReader.CziSlotSize`):
  - 16-bit files get exactly the 16-bit slot;
  - 24- to 96-bit files get a larger slot, which stays zero, because `readCziPlane` writes nothing for them;
  - 8-bit files would overrun their slot. The model gives them the 16-bit slot instead (see Findings).

## Model

| member | source | states |
|---|---|---|
| `Common.ToU32` | src/fileformats/fileReaderCzi.cpp:89-104 | Converting an `int` to `uint32_t` keeps non-negative values below 2^32 and adds 2^32 to negative ones. |
| `Common.ToI32` | src/fileformats/fileReaderTIFF.cpp:458-461 | Casting a 32-bit unsigned value to `int32_t` keeps it below 2^31 and subtracts 2^32 above that. |
| `Text.Find` | src/graphics/volumeDimensions.cpp:7-15 | `std::string::find`: -1 (npos) when `p` occurs nowhere at or after `from`; otherwise a position where `p` occurs, with no earlier occurrence. |
| `Text.FindChar` | src/graphics/volumeDimensions.cpp:95-97 | `find(ch)` is -1 exactly when `ch` is absent; otherwise it is the first index holding `ch`. |
| `Text.RFindChar` | src/fileformats/fileReaderTIFF.cpp:191 | `rfind(ch)` is -1 exactly when `ch` is absent; otherwise it is an index holding `ch` with no `ch` after it. |
| `Text.Substr` | src/fileformats/fileReaderTIFF.cpp:192 | `substr(pos, len)` is a slice of `s` starting at `pos`; its length is `len` when `len` fits, the rest of `s` otherwise. |
| `Text.LexCompare` | src/fileformats/fileReaderTIFF.cpp:30 | `compare` returns 0 exactly when the strings are equal. |
| `Text.StartsWith` | src/fileformats/fileReaderTIFF.cpp:17-25 | `startsWith` (also at volumeDimensions.cpp:7-15) holds exactly when `p` is a prefix of `s`. |
| `Text.EndsWith` | src/fileformats/fileReaderTIFF.cpp:26-34 | `endsWith` holds exactly when `p` is a suffix of `s`. |
| `Text.PiecesJoin` | src/fileformats/fileReaderTIFF.cpp:37-46 | Joining the pieces of `s` with the delimiter gives back `s`. |
| `Text.PiecesNoDelimiter` | src/fileformats/fileReaderTIFF.cpp:37-46 | No piece contains the delimiter. |
| `Text.PiecesCount` | src/fileformats/fileReaderTIFF.cpp:37-46 | There is one more piece than there are delimiters. |
| `Text.GetlineTokensSpec` | src/fileformats/fileReaderTIFF.cpp:37-46 | `getline` tokens: none for the empty string, no token contains the delimiter, and the tokens joined give `s` without a final delimiter. The count is the number of delimiters, plus one when `s` does not end in one. |
| `Text.Split` | src/fileformats/fileReaderTIFF.cpp:37-46 | The `getline` loop of `split` pushes exactly the `getline` tokens of `s`. |
| `Text.LowerChar` | src/fileformats/fileReader.cpp:37-41 | `tolower` adds 32 to `A`..`Z` and leaves every other character alone. |
| `Text.Lower` | src/fileformats/fileReader.cpp:37-41 | Lower-casing keeps the length and lower-cases each character in place. |
| `Text.NatToString` | src/fileformats/fileReaderTIFF.cpp:185-187 | `to_string` yields a non-empty run of decimal digits, with no leading zero for a positive number. |
| `Text.NatToStringRoundTrip` | src/fileformats/fileReaderTIFF.cpp:185-187 | Reading `to_string(n)` back as a decimal number gives `n`. |
| `Text.NatToStringInjective` | src/fileformats/fileReaderTIFF.cpp:185-187 | Different numbers have different decimal strings, so index channel names are distinct. |
| `Xml.FirstNamed` | src/fileformats/fileReaderCzi.cpp:122-142 | The position of the first child with the name, or -1 when no child has it. |
| `Xml.Child` | src/fileformats/fileReaderCzi.cpp:122-142 | pugixml `child(name)` gives the FIRST child of `n` with that name: no earlier child has it. It is the null node exactly when no child has the name, or when `n` is null. |
| `Xml.ChildrenNamed` | src/fileformats/fileReaderCzi.cpp:144-147 | The `next_sibling(name)` walk visits exactly the children with that name: each as often as it occurs among the children (multiset), and none from the null node. `Xml.FilterAppend` gives the document order. |
| `Xml.Filter` | src/fileformats/fileReaderCzi.cpp:144-147 | Keeping the nodes with the name: only such nodes, and no more nodes than the input. |
| `Xml.FilterCounts` | src/fileformats/fileReaderCzi.cpp:144-147 | Each node with the name is kept as often as it occurs in the input; no other node is kept. |
| `Xml.FilterAppend` | src/fileformats/fileReaderCzi.cpp:144-147 | One more sibling extends the walk by that sibling exactly when it has the name, so the walk keeps document order. |
| `Xml.FilterFirst` | src/fileformats/fileReaderCzi.cpp:144-147 | The walk is empty exactly when no node has the name; otherwise it starts at the first node with the name. |
| `Xml.FirstChildStartsWalk` | src/fileformats/fileReaderCzi.cpp:144-147 | The loop that begins at `child(name)` and steps with `next_sibling(name)` starts at `child(name)`, and it is empty exactly when `child(name)` is null. |
| `Xml.Lookup` | src/fileformats/fileReaderTIFF.cpp:248-257 | An attribute is found exactly when some attribute of the element carries that name. The value found is that of the first attribute with the name. |
| `Xml.AttributeOf` | src/fileformats/fileReaderTIFF.cpp:248-257 | The null node has no attributes. An element has the attribute exactly when one of its attributes carries the name, and the value is that of the first such attribute. |
| `MixedRadix.MixedRadixDecode` | src/graphics/volumeDimensions.cpp:126-152 | Dividing and taking remainders by the extents recovers each digit of a mixed-radix number. |
| `MixedRadix.MixedRadixRecompose` | src/graphics/volumeDimensions.cpp:126-152 | The digits obtained by division and remainder recombine to the number. |
| `MixedRadix.MixedRadixBound` | src/graphics/volumeDimensions.cpp:117-123 | A mixed-radix number whose digits are in range lies below the product of the extents. |
| `VolumeDims.ScanOrder` | src/graphics/volumeDimensions.cpp:21-48 | The loop over the order string reports duplicates exactly when a letter repeats, and bad letters exactly when one falls outside X, Y, Z, C, T. |
| `VolumeDims.Validate` | src/graphics/volumeDimensions.cpp:17-90 | `validate` returns true exactly when the record satisfies every check (predicate `IsValid`). |
| `VolumeDims.IsValidMeans` | src/graphics/volumeDimensions.cpp:17-90 | Spelled out, the checks are: the order starts with XY or YX, repeats no letter and has only standard letters; all five sizes are positive; all three voxel sizes are positive; the channel-name list is empty or has exactly `sizeC` entries. A record with no names therefore passes for any `sizeC`. |
| `VolumeDims.ValidOrderOfLengthFive` | src/graphics/volumeDimensions.cpp:21-48 | For a valid record, the order is a full permutation of XY/YX followed by Z, C, T exactly when it has length 5. |
| `VolumeDims.XYZValid` | src/graphics/volumeDimensions.cpp:17-90 | With the order `"XYZ"`, validity reduces to the size, voxel-size and channel-name checks. |
| `VolumeDims.ValidateAcceptsShortOrder` | src/graphics/volumeDimensions.cpp:21-48 | A record with the three-letter order `"XYZ"` passes `validate`, although that order is not a full axis order. |
| `VolumeDims.AxisOrderValid` | src/graphics/volumeDimensions.cpp:17-90 | For a full axis order, validity reduces to positive sizes, positive voxel sizes and a channel-name list that is empty or has exactly `sizeC` entries. |
| `VolumeDims.Slot` | src/graphics/volumeDimensions.cpp:95-97 | `find(axis) - 2` as a `size_t`: a slot 0..2 exactly when the axis sits at position 2..4, and a wrapped 64-bit value otherwise. |
| `VolumeDims.GetPlaneIndex` | src/graphics/volumeDimensions.cpp:92-124 | `getPlaneIndex`: the three-term sum of each coordinate times the extents of the slots below it, in 32 bits. It has no contract of its own. `VolumeDims.PlaneIndexFormula`, `PlaneIndexBound` and the round trips with `GetPlaneZCT` state what it computes. |
| `VolumeDims.PlaneIndexFormula` | src/graphics/volumeDimensions.cpp:92-124 | For a full axis order, `getPlaneIndex` is the mixed-radix number of (Z, C, T) in the order's slots, reduced to 32 bits. |
| `VolumeDims.LinearSum` | src/graphics/volumeDimensions.cpp:117-123 | The three-term sum of `getPlaneIndex` equals the mixed-radix number of (Z, C, T) in the order's slots. |
| `VolumeDims.PlaneIndexXYZCT` | src/graphics/volumeDimensions.cpp:117-123 | For XYZCT the plane index is `z + c*sizeZ + t*sizeZ*sizeC`, in 32 bits. |
| `VolumeDims.PlaneIndexXYCZT` | src/graphics/volumeDimensions.cpp:117-123 | For XYCZT the plane index is `c + z*sizeC + t*sizeC*sizeZ`, in 32 bits. |
| `VolumeDims.PlaneIndexExample` | src/graphics/volumeDimensions.cpp:92-124 | Z=3, C=1 of an XYZCT volume with 5 slices is plane 8. |
| `VolumeDims.LinearBound` | src/graphics/volumeDimensions.cpp:117-123 | For coordinates in range, the mixed-radix number lies below `sizeZ*sizeC*sizeT`. |
| `VolumeDims.PlaneIndexBound` | src/graphics/volumeDimensions.cpp:92-124 | For coordinates in range, the plane index is below the plane count, and it is the unreduced number when that count fits 32 bits. |
| `VolumeDims.GetPlaneZCT` | src/graphics/volumeDimensions.cpp:126-152 | `getPlaneZCT` yields three coordinates. It needs only the extents of the first two slots to be non-zero, as those are its only divisors. `VolumeDims.PlaneZCTDigits` and the round trips below state what the coordinates are. |
| `VolumeDims.PlaneZCTDigits` | src/graphics/volumeDimensions.cpp:126-152 | The coordinate in each slot of the order is the matching digit of the plane number in the order's mixed radix. |
| `VolumeDims.PlaneZCTOfPlaneIndex` | src/graphics/volumeDimensions.cpp:92-152 | Round trip: `getPlaneZCT(getPlaneIndex(z, c, t)) == [z, c, t]` for coordinates in range, when the plane count fits 32 bits. |
| `VolumeDims.PlaneIndexOfPlaneZCT` | src/graphics/volumeDimensions.cpp:92-152 | Round trip: each plane number below the plane count decodes to coordinates in range that encode back to it. |
| `VolumeDims.PlaneIndexBijective` | src/graphics/volumeDimensions.cpp:92-152 | `getPlaneIndex` is a bijection from in-range coordinates onto the plane numbers below `sizeZ*sizeC*sizeT`. |
| `VolumeDims.ShortOrderIgnoresChannel` | src/graphics/volumeDimensions.cpp:92-124 | With the accepted order `"XYZ"`, channels 0 and 1 of a slice get the same plane index. |
| `VolumeDims.XYZSlots` | src/graphics/volumeDimensions.cpp:95-97 | In `"XYZ"`, Z gets slot 0, while C and T, being absent, get the wrapped slot 2^64-3. |
| `Planes.WidenSamples` | src/fileformats/fileReaderCzi.cpp:213-222 | Each little-endian 16-bit sample of a widened row equals the 8-bit sample it came from. |
| `Planes.WidenAppend` | src/fileformats/fileReaderTIFF.cpp:366-410 | Widening two pieces one after the other is widening their concatenation. |
| `Planes.Widen` | src/fileformats/fileReaderCzi.cpp:213-222 | 8→16-bit widening doubles the length. `Planes.WidenSamples` states each sample. |
| `Planes.OverwriteAt` | src/fileformats/fileReaderCzi.cpp:205-212 | `memcpy(dest + off, w, n)`: bytes in `[off, off+n)` come from `w` and every other byte is unchanged. |
| `Planes.OverwriteAppend` | src/fileformats/fileReaderCzi.cpp:205-212 | Two copies side by side equal one copy of their concatenation. |
| `Planes.Overwrite` | src/fileformats/fileReaderCzi.cpp:205-212 | `memcpy` into an offset range keeps the buffer's length. `Planes.OverwriteAt` states each byte. |
| `Planes.CopyInto` | src/fileformats/fileReaderCzi.cpp:205-212 | The byte-copy loop leaves the destination equal to `Overwrite(old, off, src)`. |
| `Planes.WidenInto` | src/fileformats/fileReaderCzi.cpp:213-222 | The 8→16-bit loop writes `src[i]` and then a zero byte for each sample, and leaves every other byte unchanged. |
| `Planes.Pad` | src/fileformats/fileReaderTIFF.cpp:480-483 | A plane placed in a zeroed slot: its bytes, then zeros up to the slot size. |
| `Planes.Assemble` | src/fileformats/fileReaderTIFF.cpp:480-498 | The planes in order, each padded with zeros to the slot size. It has no contract of its own. `Planes.AssembleLength` and `Planes.AssembleAt` state its length and each byte. |
| `Planes.AssembleLength` | src/fileformats/fileReaderTIFF.cpp:480-483 | The assembled buffer is `planes × slot size` bytes. |
| `Planes.AssembleAt` | src/fileformats/fileReaderTIFF.cpp:490-498 | Byte `k` of slot `j` in the buffer is byte `k` of plane `j` padded with zeros. |
| `Planes.SlotsDisjoint` | src/fileformats/fileReaderTIFF.cpp:493 | Slot `i` ends where a later slot `j` can start, and every slot ends inside the buffer. |
| `Planes.SlotFilledAt` | src/fileformats/fileReaderCzi.cpp:308 | Writing plane (c, s) at `c*(planesize*sizeZ) + s*planesize` extends the filled prefix by that plane and keeps the rest zero. |
| `Planes.GridComplete` | src/fileformats/fileReaderTIFF.cpp:490-498 | Once every channel is filled, the buffer is all planes in channel-major, slice-minor order, each padded to its slot. |
| `Planes.WrittenStep` | src/fileformats/fileReaderTIFF.cpp:493 | The buffer after plane (c, s) is the buffer before it, overwritten at `destptr` by that plane. |
| `Planes.WrittenAll` | src/fileformats/fileReaderTIFF.cpp:480-498 | After the last channel, the written buffer is the full assembly of all planes. |
| `Planes.Written` | src/fileformats/fileReaderTIFF.cpp:480-498 | The buffer once the planes before (c, s) are read keeps the length of the full buffer. `Planes.WrittenStep`, `Planes.SlotFilledAt` and `Planes.WrittenAll` state its contents. |
| `TiffReader.LineEntryRejects` | src/fileformats/fileReaderTIFF.cpp:131-147 | An ImageJ line is rejected exactly when it is empty or splits into more than two parts on `=`. |
| `TiffReader.ImageJMetadataExists` | src/fileformats/fileReaderTIFF.cpp:131-147 | The ImageJ key/value map exists exactly when every line splits into a key and a value. |
| `TiffReader.ImageJMetadataKeys` | src/fileformats/fileReaderTIFF.cpp:131-147 | The map's keys are exactly the keys the lines name. |
| `TiffReader.ImageJMetadataLastWins` | src/fileformats/fileReaderTIFF.cpp:131-147 | A key keeps the value of the last line that names it. |
| `TiffReader.ParseImageJ` | src/fileformats/fileReaderTIFF.cpp:131-147 | The line loop succeeds exactly when the map exists, and then it has built that map. |
| `TiffReader.IndexNamesDistinct` | src/fileformats/fileReaderTIFF.cpp:185-187 | The default channel names "0", "1", … are pairwise different. |
| `TiffReader.ChannelIndexNames` | src/fileformats/fileReaderTIFF.cpp:185-187 | The `to_string` loop yields "0" … "n-1". |
| `TiffReader.OmeBitsAccepted` | src/fileformats/fileReaderTIFF.cpp:235-247 | The OME pixel-type table gives 8 or 16 bits exactly for uint8, int8, uint16 and int16. |
| `TiffReader.ChannelLabel` | src/fileformats/fileReaderTIFF.cpp:262-275 | An OME channel's name is non-empty. It is the `Name` attribute when that is non-empty; otherwise the `ID` attribute when that is non-empty; otherwise the channel's index in decimal. |
| `TiffReader.ChannelLabels` | src/fileformats/fileReaderTIFF.cpp:262-275 | There is one non-empty label per `Channel` element, in document order. |
| `TiffReader.OmeChannelNames` | src/fileformats/fileReaderTIFF.cpp:262-275 | The `Channel` loop pushes one label per element, in order. |
| `TiffReader.ReadImageJ` | src/fileformats/fileReaderTIFF.cpp:126-187 | The ImageJ branch yields the record for the parsed map (channels, slices, frames, spacing, index names), or nothing when a line is rejected. |
| `TiffReader.ReadOme` | src/fileformats/fileReaderTIFF.cpp:214-275 | The OME-XML branch, as written: parse the document, take `Pixels`, apply the inverted test, read the type table and the attributes. |
| `TiffReader.ReadShapeArray` | src/fileformats/fileReaderTIFF.cpp:188-212 | The shape-array branch returns before it assigns any size. |
| `TiffReader.DialectOf` | src/fileformats/fileReaderTIFF.cpp:126-276 | The description's dialect, tested in the source's order: ImageJ, then shape array, then OME-XML, else none. It has no contract of its own. `TiffReader.TiffDimensionsImageJ`, `ShapeArrayAlwaysFails`, `OmeXmlAlwaysFails` and `PlainCountsDirectories` state each dialect's outcome. |
| `TiffReader.TiffDimensions` | src/fileformats/fileReaderTIFF.cpp:77-312 | The flag and record `readTiffDimensions` leaves. It has no contract of its own. `TiffReader.ReadTiffDimensions` is proved against it, and `TiffDimensionsValid` states that success means a valid record. |
| `TiffReader.CountDirectories` | src/fileformats/fileReaderTIFF.cpp:276-285 | The `TIFFSetDirectory` walk counts the file's directories. |
| `TiffReader.ReadTiffDimensions` | src/fileformats/fileReaderTIFF.cpp:77-312 | `readTiffDimensions` returns the flag and record of `TiffDimensions`. The record is `dims0` when a branch returns before assigning. Otherwise it is the dialect branch's record, and the flag is whether that record passes `validate`: a failing `validate` returns false with the record already assigned. |
| `TiffReader.TiffDimensionsValid` | src/fileformats/fileReaderTIFF.cpp:311 | A successful read yields a record that passes `validate`. |
| `TiffReader.TiffDimensionsImageJ` | src/fileformats/fileReaderTIFF.cpp:126-187 | With an ImageJ description, the read is the ImageJ branch followed by validation. |
| `TiffReader.ImageJDefaults` | src/fileformats/fileReaderTIFF.cpp:114-187 | Without channels/slices/frames/spacing keys: 1 channel named "0", 1 slice, 1 time point, unit voxels, order XYCZT. Success then depends on the width and height being positive. |
| `TiffReader.ImageJBadLineFails` | src/fileformats/fileReaderTIFF.cpp:131-147 | One rejected ImageJ line makes the read fail and leaves the default record. |
| `TiffReader.OmeXmlAlwaysFails` | src/fileformats/fileReaderTIFF.cpp:214-257 | An OME-XML description never yields a successful read. |
| `TiffReader.OmeNullInvalid` | src/fileformats/fileReaderTIFF.cpp:248-252 | Attributes read from the null `Pixels` handle give size 0, so the record fails `validate`. |
| `TiffReader.ShapeArrayAlwaysFails` | src/fileformats/fileReaderTIFF.cpp:188-212 | A shape-array description always fails and leaves the default record. |
| `TiffReader.PlainCountsDirectories` | src/fileformats/fileReaderTIFF.cpp:276-285 | An undecorated description: one slice per directory, 1 channel named "0", 1 time point. Success needs at least one directory. |
| `TiffReader.StripsReadSpec` | src/fileformats/fileReaderTIFF.cpp:366-410 | The strip loop succeeds exactly when every strip decodes and, if there is a strip, the depth is 8 or 16. Zero strips therefore succeed at any depth. On success it writes all strips in order, copied verbatim at 16 bits and widened at 8 bits. |
| `TiffReader.StripsStop` | src/fileformats/fileReaderTIFF.cpp:366-410 | A strip that fails to decode, or an unsupported depth, stops the read with what was written so far. |
| `TiffReader.StripsRead` | src/fileformats/fileReaderTIFF.cpp:366-410 | The strip loop as a function of the decoded strips. It has no contract of its own. `TiffReader.StripsReadSpec` states it. |
| `TiffReader.PlaneRead` | src/fileformats/fileReaderTIFF.cpp:315-413 | `readTiffPlane` on one directory: the tile, copied or widened, or the strips. It has no contract of its own. `TiffReader.ReadTile`, `ReadStrips` and `ReadTiffPlane` are proved against it. |
| `TiffReader.ReadTile` | src/fileformats/fileReaderTIFF.cpp:328-365 | The tiled path reads the single tile, succeeding or failing as it does, and overwrites the slot with its converted bytes. |
| `TiffReader.ReadStrips` | src/fileformats/fileReaderTIFF.cpp:366-410 | The strip path reports the loop's success and leaves the destination overwritten at `off` by what the loop wrote. |
| `TiffReader.ReadTiffPlane` | src/fileformats/fileReaderTIFF.cpp:315-413 | A missing directory fails and writes nothing. Otherwise the plane's tile or strips are read, with their success flag, into the slot. |
| `TiffReader.ReadSlot` | src/fileformats/fileReaderTIFF.cpp:491-497 | Reading plane (c, s) at `getPlaneIndex(s, c, time)` succeeds as that plane does. It then advances the buffer from `Written(c, s)` to `Written(c, s+1)`. |
| `TiffReader.ReadChannel` | src/fileformats/fileReaderTIFF.cpp:491-497 | The slice loop succeeds exactly when every slice of the channel reads. It then has written the whole channel. |
| `TiffReader.ReadChannels` | src/fileformats/fileReaderTIFF.cpp:490-498 | The channel loop succeeds exactly when every plane reads. It then has written every channel. |
| `TiffReader.ReadPlanes` | src/fileformats/fileReaderTIFF.cpp:480-498 | Zeroed buffer plus the loops: success exactly when all planes read, with the buffer equal to the assembly of all planes. |
| `TiffReader.VolumeBytes` | src/fileformats/fileReaderTIFF.cpp:480-498 | The assembly of all planes of a time point in 16-bit slots. It has no contract of its own. `TiffReader.ReadPlanes` is proved against it. |
| `TiffReader.LoadOmeTiff` | src/fileformats/fileReaderTIFF.cpp:434-531 | `loadOMETiff`: an image exactly when the file opens, the dimensions read, `time <= (int32_t)(sizeT-1)` and every plane reads. The image holds the assembled 16-bit volume, and `outDims` is written exactly then, with the record read. |
| `CziReader.SceneYXSizeCases` | src/fileformats/fileReaderCzi.cpp:49-63 | `getSceneYXSize` gives the scene's bounding box when the scene index is valid, and the layer-0 box otherwise. |
| `CziReader.SceneYXSize` | src/fileformats/fileReaderCzi.cpp:49-63 | `getSceneYXSize`. It has no contract of its own; `CziReader.SceneYXSizeCases` states both cases. |
| `CziReader.EnumValidDimensions` | src/fileformats/fileReaderCzi.cpp:89-104 | The enumeration callback sets `sizeZ`/`sizeC`/`sizeT` from the Z/C/T intervals present and leaves all else. |
| `CziReader.OnlyZctBounds` | src/fileformats/fileReaderCzi.cpp:89-104 | Intervals of other dimensions do not affect the record. |
| `CziReader.ChannelsElementPath` | src/fileformats/fileReaderCzi.cpp:122-142 | `Channels` is found exactly when the path Metadata/Information/Image/Dimensions/Channels exists. |
| `CziReader.FindChannels` | src/fileformats/fileReaderCzi.cpp:122-142 | The chain of `child` calls with its null checks returns the `Channels` element. |
| `CziReader.Names` | src/fileformats/fileReaderCzi.cpp:143-149 | There is one name per `Channel` element, in order. |
| `CziReader.ReadChannelNames` | src/fileformats/fileReaderCzi.cpp:143-149 | The sibling loop pushes the `Name` attribute of each `Channel`. |
| `CziReader.PixelBitsAccepted` | src/fileformats/fileReaderCzi.cpp:151-179 | The pixel-type table gives a non-zero depth exactly for the six supported types, always a whole number of bytes. |
| `CziReader.ReadCziExtents` | src/fileformats/fileReaderCzi.cpp:82-108 | Physical sizes, the Z/C/T intervals and the scene-0 box, as `CziExtents` states. |
| `CziReader.ReadCziDimensions` | src/fileformats/fileReaderCzi.cpp:65-182 | `readCziDimensions` succeeds exactly when `CziDimensions` is Some: no mosaic, metadata parsed, a known pixel type, and a valid record. The record is then that value. |
| `CziReader.CziDimensions` | src/fileformats/fileReaderCzi.cpp:65-182 | The record `readCziDimensions` reads, or None where it returns false. It has no contract of its own. `CziReader.ReadCziDimensions` is proved against it, and `CziDimensionsFields` and `MosaicRejected` state its contents. |
| `CziReader.MosaicRejected` | src/fileformats/fileReaderCzi.cpp:72-75 | A mosaic file (`maxMindex > 0`) is rejected. |
| `CziReader.CziDimensionsFields` | src/fileformats/fileReaderCzi.cpp:65-182 | A record read is valid. Its extents come from the intervals and the scene-0 box, its depth from the table and its names from the channel elements; the order is unchanged. |
| `CziReader.LoadDimensionsCzi` | src/fileformats/fileReaderCzi.cpp:233-258 | `loadDimensionsCzi` gives the record read, or the default when the file does not open or the read fails. Either way the result is the default or valid. |
| `CziReader.Plane16At` | src/fileformats/fileReaderCzi.cpp:205-212 | In a 16-bit plane, byte `k` of row `y` is byte `y*stride + k` of the bitmap, whatever the stride. |
| `CziReader.Plane8At` | src/fileformats/fileReaderCzi.cpp:213-222 | In an 8-bit plane, 16-bit sample `x` of row `y` is byte `y*stride + x` of the bitmap. |
| `CziReader.CopyRows` | src/fileformats/fileReaderCzi.cpp:205-212 | The 16-bit row loop writes the bitmap's rows, `2*w` bytes each, back to back at `off`. |
| `CziReader.WidenRows` | src/fileformats/fileReaderCzi.cpp:213-222 | The 8-bit row loop writes the widened rows back to back at `off`. |
| `CziReader.ReadCziPlane` | src/fileformats/fileReaderCzi.cpp:185-231 | `readCziPlane` always returns true. With no sub-block it writes nothing; otherwise it overwrites the slot with the plane's bytes. |
| `CziReader.PlaneCoordShifted` | src/fileformats/fileReaderCzi.cpp:310-320 | The plane coordinate holds C, Z, T and S each shifted by its interval start, and only for the dimensions present. |
| `CziReader.FormPlaneCoord` | src/fileformats/fileReaderCzi.cpp:278-320 | `TryGetInterval` and the `if` chain build exactly `PlaneCoord`. |
| `CziReader.PlaneFillsSlot` | src/fileformats/fileReaderCzi.cpp:185-231 | A plane of 8 or 16 bits fills exactly one 16-bit slot, and that is the slot `CziSlotSize` gives it. A plane of any other depth writes nothing. No plane is larger than its slot. |
| `CziReader.CziSlotSize` | src/fileformats/fileReaderCzi.cpp:296-298 | The slot `loadCzi` gives each plane: `sizeX*sizeY*bitsPerPixel/8` bytes, with the 16-bit slot for 8-bit files. It has no contract of its own; `CziReader.SlotHoldsPlane` states it. |
| `CziReader.SlotHoldsPlane` | src/fileformats/fileReaderCzi.cpp:296-298 | For every supported depth a slot holds a plane of the 16-bit image. It holds exactly one for 8 and 16 bits, and more for 24 to 96 bits when the plane is not empty. |
| `CziReader.ReadSlotPlane` | src/fileformats/fileReaderCzi.cpp:308-321 | Reading plane (c, s) at `destptr` advances the buffer from `Written(c, s)` to `Written(c, s+1)`. |
| `CziReader.ReadCziSlot` | src/fileformats/fileReaderCzi.cpp:307-321 | The body of the slice loop, for the plane of the file's sub-block at (c, s). |
| `CziReader.ReadCziChannel` | src/fileformats/fileReaderCzi.cpp:307-322 | The slice loop writes every slice of the channel. |
| `CziReader.ReadCziChannels` | src/fileformats/fileReaderCzi.cpp:306-322 | The channel loop writes every channel. |
| `CziReader.ReadCziVolume` | src/fileformats/fileReaderCzi.cpp:296-322 | Zeroed buffer of `CziSlotSize` slots plus the loops: the result is `CziVolume`, the assembly of every plane in its slot. |
| `CziReader.CziVolume` | src/fileformats/fileReaderCzi.cpp:296-322 | The buffer once every plane is read: the planes by channel, then slice, each in a zero-padded `CziSlotSize` slot. It has no contract of its own. `CziReader.ReadCziVolume` is proved against it, and `Planes.AssembleAt` states each byte. |
| `CziReader.ChannelCountAgrees` | src/fileformats/fileReaderCzi.cpp:287-294 | When a C interval exists, the record's `sizeC` matches its size, so the mismatch test never fires. Without a C interval the test fires, and `LoadCzi` returns no image. |
| `CziReader.LoadCzi` | src/fileformats/fileReaderCzi.cpp:260-369 | `loadCzi`: an image exactly when the file opens, the dimensions read and the Z and C intervals exist. The image holds the volume assembled in `CziSlotSize` slots; for 8-bit files that is the corrected slot (see Findings). `outDims` is written exactly then, with the record read. |
| `CziReader.AsWrittenSixteenBit` | src/fileformats/fileReaderCzi.cpp:296-298 | For 16-bit files the slot size as written is the size of a 16-bit slot. |
| `CziReader.LastSlotOverruns` | src/fileformats/fileReaderCzi.cpp:308 | A block twice the slot size, written at the last slot, ends past the buffer. |
| `CziReader.EightBitPlaneOverruns` | src/fileformats/fileReaderCzi.cpp:296-298 | For 8-bit files the plane written is twice the slot as written, and the last plane's write ends past the buffer. |
| `FileReader.CachedEntries` | src/fileformats/fileReader.cpp:49-51 | Caching adds the image under its key when asked and the image exists. Every other key keeps its entry. |
| `FileReader.LowerIdempotent` | src/fileformats/fileReader.cpp:37-41 | Lower-casing twice is lower-casing once. |
| `FileReader.FormatIgnoresCase` | src/fileformats/fileReader.cpp:37-47 | The reader chosen does not depend on the extension's case. |
| `FileReader.FormatExamples` | src/fileformats/fileReader.cpp:43-47 | `.TIF` goes to the TIFF reader, `.Czi` to the CZI reader, and `.png` to neither. |
| `FileReader.LowerExtension` | src/fileformats/fileReader.cpp:37-41 | The `tolower` loop yields the lower-cased extension. |
| `FileReader.Dispatch` | src/fileformats/fileReader.cpp:37-47 | `.tif`/`.tiff` run `loadOMETiff` and `.czi` runs `loadCzi`, ignoring case. Anything else yields no image. |
| `FileReader.ArrayImageShape` | src/fileformats/fileReader.cpp:76-107 | The array image takes C, Z, Y, X from shape entries 0..3, is 16-bit, and keeps the data, names and voxel sizes given. |
| `FileReader.FileReader.constructor` | src/fileformats/fileReader.cpp:14 | The cache starts empty. |
| `FileReader.FileReader.LoadFromFile` | src/fileformats/fileReader.cpp:20-53 | A cached path returns the cached image and changes nothing. Otherwise the file is opened and the image is cached when asked. |
| `FileReader.FileReader.LoadFromFile4D` | src/fileformats/fileReader.cpp:55-59 | `loadFromFile` at time 0, scene 0. |
| `FileReader.FileReader.LoadFromArray4D` | src/fileformats/fileReader.cpp:61-113 | A cached name returns the cached image. Otherwise the image is built from the CZYX shape and cached when asked. |
| `FileReader.ReloadIsCached` | src/fileformats/fileReader.cpp:20-53 | Once a path has loaded with caching on, loading it again returns the same image. |

## Left out

- Buffer sizes and offsets are computed exactly, as if no product wraps. The source mixes widths:
  - `loadOMETiff` forms `planesize_bytes = sizeX*sizeY*(IN_MEMORY_BPP/8)` as a 32-bit unsigned product and then widens it to `size_t`. `channelsize_bytes`, the buffer size and the slot offsets are `size_t` products.
  - `loadCzi` forms `sizeX*sizeY*bitsPerPixel/8` in 32 bits, so the product wraps before the division. A 16-bit 16384×16384 plane (512 MiB) gives `16384*16384*16`, which is 2^32 and wraps to a slot of 0 bytes. `planesize*sizeZ*sizeC` is a `size_t` product.
  - The CZI slot index `channel*sizeZ + slice` is a 32-bit unsigned product.
  The model does not capture these wraps.
- libCZI, libtiff and pugixml are not modelled as code. An opened file is a value (`CziFile`, `TiffFile`): directories with their tiles or strips, statistics, sub-block bitmaps and the parsed metadata tree. A file that fails to open is `None`.
- `std::stoi`/`std::stof` and pugixml's `as_int`/`as_float` are uninterpreted functions taken as parameters (`Parsers`). Their exceptions are not modelled.
- Floating point is modelled as `real`. This covers the factor `1000000.0f` of the CZI scaling and the spacing parsed from ImageJ text; rounding is not modelled.
- Logging (`spdlog`, `VolumeDimensions::log`) and timing are left out; they do not affect results.
- Debug-only `assert`s are modelled as in a release build, where they compile to nothing, with two exceptions:
  - `FileReader.FileReader.LoadFromArray4D` requires `|shape| == 4` and `|physicalSizes| == 3` (fileReader.cpp:80 and :88);
  - `CziReader.BlocksFit` requires each sub-block's bitmap to have exactly the record's width and height (fileReaderCzi.cpp:202-203).

  The other asserts are not modelled: the model carries on where a debug build would abort. These are:
  - the size asserts of `readTiffDimensions` (fileReaderTIFF.cpp:287-295), which run before `validate`. For an ImageJ `channels=0` file, or one that takes the OME null-`Pixels` path, the model lets `validate` return false.
  - the `ptrDataRoi == ptrData` assert and the stride asserts of `readCziPlane` (fileReaderCzi.cpp:201, :206, :214). `CziReader.Readable` asks only that the rows read lie inside the bitmap's data.
- Samples are assumed little-endian, as on the hosts agave2 targets. Widening writes the byte and then a zero.
- Ownership and aliasing of `std::shared_ptr<ImageXYZC>` are not modelled. An image is a value, and the cache holds a copy.
- The cache's static lifetime and (lack of) thread safety are not modelled. The cache is a field of a `FileReader` object.
- `loadDimensionsTiff` is not modelled; it is not needed by the loaders here.
- The `emptyimage` return after `readCziPlane` is not modelled: that call always succeeds (`CziReader.ReadCziPlane` proves `ok`), so the return cannot be reached.
- Reading `sceneBoundingBoxes[scene]` with `operator[]` inserts an empty box for a missing scene. The insertion is not modelled; `SceneYXSize` only reads.
- `int32` overflow of `start + index` in the CZI plane coordinate is not modelled; coordinates are unbounded integers.
- `readTiffPlane` and `readCziPlane` assume, without checking, that the destination has room for the plane. The model states that assumption as a precondition on the loaders, and the behaviour of a plane larger than its slot is not modelled:
  - `TiffReader.PlanesFit`: every plane of the time point read fits its 16-bit slot. `TiffReader.LoadOmeTiff` and `FileReader.Readable` require it only when the dimensions read successfully and the time point passes the time test, so files that fail earlier are not excluded.
  - `CziReader.BlocksFit`: every sub-block the loops visit has exactly the record's width and height, and its rows lie inside the bitmap data. `CziReader.LoadCzi` and `FileReader.Readable` require it only once the dimensions read successfully and the Z and C intervals exist, so files that `loadCzi` rejects before reading a plane are not excluded.
- TiffReader.LoadOmeTiff: the scene argument is accepted and ignored. The source clamps a positive scene to 0, but never reads the value after that, so only the warning it logs is lost.
- CziReader.LoadCzi: for 8-bit files each plane gets the 16-bit slot `sizeX*sizeY*2`, not the code's `sizeX*sizeY` slot that the plane overruns. The out-of-bounds write of the last plane is therefore not modelled (see Findings).
- CziReader.ReadCziPlane: libCZI's bitmap lock and unlock are not modelled; a sub-block is read as a bitmap value.
- FileReader.FileReader.LoadFromFile: the extension is passed separately from the path. `boost::filesystem::path::extension` is not modelled.

## Findings

| source | as written | input that shows it | evidently intended | confidence | as-written member | corrected member |
|---|---|---|---|---|---|---|
| src/fileformats/fileReaderCzi.cpp:296-298 | The slot size is `sizeX*sizeY*bitsPerPixel/8`, but `readCziPlane` always writes 16-bit samples (`w*2` bytes per row, :204). | An 8-bit CZI with sizeX=sizeY=sizeZ=sizeC=1: the buffer is 1 byte and the plane written is 2 bytes. | Slots of `sizeX*sizeY*2` bytes, matching the 16-bit image handed to `ImageXYZC`. | not executed | `CziReader.EightBitPlaneOverruns` | `CziReader.PlaneFillsSlot` |
