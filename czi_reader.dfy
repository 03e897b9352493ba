/** The CZI reader of fileReaderCzi.cpp: reading the volume dimensions from the sub-block
    statistics and the XML metadata, copying one sub-block bitmap row by row into a plane, and
    reading a whole volume plane by plane. libCZI is replaced by the values it reports for an
    opened file. */
module CziReader {
  import opened Common
  import opened Xml
  import opened VolumeDims
  import opened Planes
  import opened MixedRadix

  /** libCZI's `DimensionIndex`: the dimensions a sub-block coordinate can have. */
  datatype Dim = Z | C | T | R | S | I | H | V | B

  /** The dimensions in the order `EnumValidDimensions` visits them. */
  const AllDims: seq<Dim> := [Dim.Z, Dim.C, Dim.T, Dim.R, Dim.S, Dim.I, Dim.H, Dim.V, Dim.B]

  /** Start and size of the index range of one dimension. */
  datatype Interval = Interval(start: int, size: int)

  /** `libCZI::IntRect`. */
  datatype Rect = Rect(x: int, y: int, w: int, h: int)

  /** The parts of `SubBlockStatistics` the reader uses: the largest M index (above 0 for a
      mosaic), the dimensions that have bounds, the layer-0 bounding box of the whole image and the
      layer-0 bounding box of each scene that has one. */
  datatype Statistics = Statistics(
    maxMindex: int,
    dimBounds: map<Dim, Interval>,
    boundingBoxLayer0Only: Rect,
    sceneBoundingBoxes: map<int, Rect>)

  /** libCZI's `PixelType`. */
  datatype PixelType =
    | Invalid | Gray8 | Gray16 | Gray32Float | Bgr24 | Bgr48 | Bgr96Float
    | Bgra32 | Gray64ComplexFloat | Bgr192ComplexFloat | Gray32 | Gray64Float

  /** A locked sub-block bitmap: its width and height in pixels, the distance in bytes from the
      start of one row to the next, and its bytes. */
  datatype Bitmap = Bitmap(w: u32, h: u32, stride: nat, data: seq<byte>)

  /** An opened CZI file: its statistics, the scaling of its document information (meters per
      pixel), its XML metadata as parsed (None on a parse error), the pixel type of a sub-block
      of channel 0 (None when there is none), and for a plane coordinate and a rectangle the
      bitmap of the first layer-0 sub-block `EnumSubset` visits (None when it visits none). */
  datatype CziFile = CziFile(
    stats: Statistics,
    scaleX: real, scaleY: real, scaleZ: real,
    metadata: Option<Node>,
    channel0: Option<PixelType>,
    subset: (map<Dim, int>, Rect) -> Option<Bitmap>)

  // ---------------------------------------------------------------------------------------------
  // getSceneYXSize

  /** `sceneBoundingBoxes[scene].boundingBoxLayer0`: `operator[]` of `std::map` yields an all-zero
      box for a scene without an entry. */
  function SceneBox(boxes: map<int, Rect>, scene: int): Rect
  {
    if scene in boxes then boxes[scene] else Rect(0, 0, 0, 0)
  }

  /** `getSceneYXSize(statistics, scene)`. */
  function SceneYXSize(st: Statistics, scene: int): Rect
  {
    if Dim.S in st.dimBounds then
      var iv := st.dimBounds[Dim.S];
      if scene >= iv.start && iv.start + iv.size - 1 >= scene && |st.sceneBoundingBoxes| != 0 then
        SceneBox(st.sceneBoundingBoxes, scene)
      else st.boundingBoxLayer0Only
    else st.boundingBoxLayer0Only
  }

  /** The statistics have an S range holding `scene`, and scene boxes. */
  predicate SceneInRange(st: Statistics, scene: int)
  {
    && Dim.S in st.dimBounds
    && st.dimBounds[Dim.S].start <= scene < st.dimBounds[Dim.S].start + st.dimBounds[Dim.S].size
    && |st.sceneBoundingBoxes| > 0
  }

  /** The scene's own box is chosen exactly when the scene is in the S range and there are scene
      boxes; otherwise the box of the whole image. This is the selection rule of `getSceneYXSize`
      stated as two cases, not an independent definition. */
  lemma SceneYXSizeCases(st: Statistics, scene: int)
    ensures SceneInRange(st, scene) ==> SceneYXSize(st, scene) == SceneBox(st.sceneBoundingBoxes, scene)
    ensures !SceneInRange(st, scene) ==> SceneYXSize(st, scene) == st.boundingBoxLayer0Only
  {
  }

  // ---------------------------------------------------------------------------------------------
  // readCziDimensions

  /** The scaling, converted from meters to micrometers. */
  const MetersToMicrons: real := 1000000.0

  /** The record after the bound enumeration: the sizes of the Z, C and T ranges, converted to
      `uint32_t`, replace the extents; no other dimension has an effect. */
  function WithBounds(b: map<Dim, Interval>, d: VolumeDimensions): VolumeDimensions
  {
    d.(sizeZ := if Dim.Z in b then ToU32(b[Dim.Z].size) else d.sizeZ,
       sizeC := if Dim.C in b then ToU32(b[Dim.C].size) else d.sizeC,
       sizeT := if Dim.T in b then ToU32(b[Dim.T].size) else d.sizeT)
  }

  /** `EnumValidDimensions` with the reader's callback: each dimension that has bounds, in turn;
      the callback records the size of Z, C and T and ignores the others. */
  method EnumValidDimensions(b: map<Dim, Interval>, d0: VolumeDimensions) returns (d: VolumeDimensions)
    ensures d == WithBounds(b, d0)
  {
    d := d0;
    var i := 0;
    while i < |AllDims|
      invariant 0 <= i <= |AllDims|
      invariant d == d0.(sizeZ := if 0 < i && Dim.Z in b then ToU32(b[Dim.Z].size) else d0.sizeZ,
                         sizeC := if 1 < i && Dim.C in b then ToU32(b[Dim.C].size) else d0.sizeC,
                         sizeT := if 2 < i && Dim.T in b then ToU32(b[Dim.T].size) else d0.sizeT)
    {
      var dim := AllDims[i];
      if dim in b {
        var size := b[dim].size;
        match dim {
          case Z => d := d.(sizeZ := ToU32(size));
          case C => d := d.(sizeC := ToU32(size));
          case T => d := d.(sizeT := ToU32(size));
          case _ =>
        }
      }
      i := i + 1;
    }
  }

  /** Bounds that agree on Z, C and T give the same extents: the other dimensions are ignored. */
  lemma OnlyZctBounds(b: map<Dim, Interval>, b': map<Dim, Interval>, d: VolumeDimensions)
    requires forall dim :: dim == Dim.Z || dim == Dim.C || dim == Dim.T ==>
      (dim in b <==> dim in b') && (dim in b ==> b[dim].size == b'[dim].size)
    ensures WithBounds(b, d) == WithBounds(b', d)
  {
    assert Dim.Z in b <==> Dim.Z in b';
    assert Dim.C in b <==> Dim.C in b';
    assert Dim.T in b <==> Dim.T in b';
  }

  /** `Metadata/Information/Image/Dimensions/Channels` below the document: the null node when an
      element on the way is missing. */
  function ChannelsElement(doc: Node): Node
  {
    Child(Child(Child(Child(Child(doc, "Metadata"), "Information"), "Image"), "Dimensions"), "Channels")
  }

  /** The channels element is found exactly when every element on the path is. */
  lemma ChannelsElementPath(doc: Node)
    ensures ChannelsElement(doc) != Null <==>
      var m := Child(doc, "Metadata");
      var i := Child(m, "Information");
      var im := Child(i, "Image");
      var ds := Child(im, "Dimensions");
      m != Null && i != Null && im != Null && ds != Null && Child(ds, "Channels") != Null
  {
  }

  /** `channelEl.attribute("Name").value()`: the empty string for a channel without a name. */
  function NameOf(ch: Node): string
  {
    AsString(AttributeOf(ch, "Name"), "")
  }

  /** The names of `cs`, in order. */
  function Names(cs: seq<Node>): (r: seq<string>)
    ensures |r| == |cs|
    ensures forall i :: 0 <= i < |cs| ==> r[i] == NameOf(cs[i])
  {
    if cs == [] then [] else Names(cs[..|cs| - 1]) + [NameOf(cs[|cs| - 1])]
  }

  /** The channel names of the metadata: one per `Channel` child, in document order. */
  function CziChannelNames(channels: Node): seq<string>
  {
    Names(ChildrenNamed(channels, "Channel"))
  }

  /** The channel loop: from `child("Channel")` along `next_sibling("Channel")`, the name of each
      channel element is pushed, an empty one included; there is no fallback name. */
  method ReadChannelNames(channels: Node) returns (names: seq<string>)
    ensures names == CziChannelNames(channels)
  {
    var cs := ChildrenNamed(channels, "Channel");
    names := [];
    var i := 0;
    while i < |cs|
      invariant 0 <= i <= |cs|
      invariant |names| == i
      invariant forall k :: 0 <= k < i ==> names[k] == NameOf(cs[k])
    {
      names := names + [AsString(AttributeOf(cs[i], "Name"), "")];
      i := i + 1;
    }
    assert names == Names(cs);
  }

  /** The pixel-type switch: bits per pixel of the six supported types, 0 for every other. */
  function PixelBits(t: PixelType): u32
  {
    match t
    case Gray8 => 8
    case Gray16 => 16
    case Gray32Float => 32
    case Bgr24 => 24
    case Bgr48 => 48
    case Bgr96Float => 96
    case _ => 0
  }

  /** A type is accepted exactly when it is one of the six, and its depth is a whole number of
      bytes. */
  lemma PixelBitsAccepted(t: PixelType)
    ensures PixelBits(t) != 0 <==> t in {Gray8, Gray16, Gray32Float, Bgr24, Bgr48, Bgr96Float}
    ensures PixelBits(t) % 8 == 0
  {
  }

  /** The record once `readCziDimensions` has set the physical sizes, the Z, C and T extents
      and the box of scene 0. */
  function CziExtents(f: CziFile, dims0: VolumeDimensions): VolumeDimensions
  {
    var box := SceneYXSize(f.stats, 0);
    var d := WithBounds(f.stats.dimBounds,
                        dims0.(physicalSizeX := f.scaleX * MetersToMicrons,
                               physicalSizeY := f.scaleY * MetersToMicrons,
                               physicalSizeZ := f.scaleZ * MetersToMicrons));
    d.(sizeX := ToU32(box.w), sizeY := ToU32(box.h))
  }

  /** The record `readCziDimensions` fills in from `dims0` once the channels element and the
      pixel type of channel 0 are known. */
  function CziRecord(f: CziFile, dims0: VolumeDimensions, channels: Node, t: PixelType): VolumeDimensions
  {
    CziExtents(f, dims0).(channelNames := CziChannelNames(channels), bitsPerPixel := PixelBits(t))
  }

  /** What `readCziDimensions` leaves in `dims` when it returns true, starting from `dims0`; None
      when it returns false. */
  function CziDimensions(f: CziFile, dims0: VolumeDimensions): Option<VolumeDimensions>
  {
    if f.stats.maxMindex > 0 || f.metadata.None? then None
    else
      var channels := ChannelsElement(f.metadata.value);
      if channels == Null || f.channel0.None? || PixelBits(f.channel0.value) == 0 then None
      else
        var r := CziRecord(f, dims0, channels, f.channel0.value);
        if IsValid(r) then Some(r) else None
  }

  /** The walk from the document down to `Metadata/Information/Image/Dimensions/Channels`,
      giving up at the first element that is missing. */
  method FindChannels(doc: Node) returns (channelsEl: Node)
    ensures channelsEl == ChannelsElement(doc)
  {
    var metadataEl := Child(doc, "Metadata");
    if metadataEl == Null {
      return Null;
    }
    var informationEl := Child(metadataEl, "Information");
    if informationEl == Null {
      return Null;
    }
    var imageEl := Child(informationEl, "Image");
    if imageEl == Null {
      return Null;
    }
    var dimensionsEl := Child(imageEl, "Dimensions");
    if dimensionsEl == Null {
      return Null;
    }
    channelsEl := Child(dimensionsEl, "Channels");
  }

  /** The first steps of `readCziDimensions`: scaling in microns, the extents of the ranges, and
      the box of scene 0. */
  method ReadCziExtents(f: CziFile, dims0: VolumeDimensions) returns (dims: VolumeDimensions)
    ensures dims == CziExtents(f, dims0)
  {
    dims := dims0.(physicalSizeX := f.scaleX * MetersToMicrons,
                   physicalSizeY := f.scaleY * MetersToMicrons,
                   physicalSizeZ := f.scaleZ * MetersToMicrons);
    dims := EnumValidDimensions(f.stats.dimBounds, dims);
    var planebox := SceneYXSize(f.stats, 0);
    dims := dims.(sizeX := ToU32(planebox.w), sizeY := ToU32(planebox.h));
  }

  /** `readCziDimensions(reader, path, statistics, dims)`. The record passed in is `dims0`; what
      the reader has written into it when it fails is returned too. */
  method ReadCziDimensions(f: CziFile, dims0: VolumeDimensions) returns (ok: bool, dims: VolumeDimensions)
    ensures ok <==> CziDimensions(f, dims0).Some?
    ensures ok ==> dims == CziDimensions(f, dims0).value
  {
    dims := dims0;
    if f.stats.maxMindex > 0 {
      return false, dims;
    }
    dims := ReadCziExtents(f, dims);
    if f.metadata.None? {
      return false, dims;
    }
    var channelsEl := FindChannels(f.metadata.value);
    if channelsEl == Null {
      return false, dims;
    }
    var channelNames := ReadChannelNames(channelsEl);
    dims := dims.(channelNames := channelNames);
    if f.channel0.None? {
      return false, dims;
    }
    var bits := PixelBits(f.channel0.value);
    dims := dims.(bitsPerPixel := bits);
    if bits == 0 {
      return false, dims;
    }
    assert dims == CziRecord(f, dims0, channelsEl, f.channel0.value);
    ok := Validate(dims);
  }

  /** A mosaic is rejected before the metadata is read. */
  lemma MosaicRejected(f: CziFile, dims0: VolumeDimensions)
    requires f.stats.maxMindex > 0
    ensures CziDimensions(f, dims0) == None
  {
  }

  /** The record read: a valid one, extents from the Z, C and T ranges and the box of scene 0,
      depth from the pixel table, one name per channel element, and everything else as it was. */
  lemma CziDimensionsFields(f: CziFile, dims0: VolumeDimensions)
    requires CziDimensions(f, dims0).Some?
    ensures var d := CziDimensions(f, dims0).value;
      var b := f.stats.dimBounds;
      && IsValid(d)
      && d.sizeZ == (if Dim.Z in b then ToU32(b[Dim.Z].size) else dims0.sizeZ)
      && d.sizeC == (if Dim.C in b then ToU32(b[Dim.C].size) else dims0.sizeC)
      && d.sizeT == (if Dim.T in b then ToU32(b[Dim.T].size) else dims0.sizeT)
      && d.sizeX == ToU32(SceneYXSize(f.stats, 0).w) && d.sizeY == ToU32(SceneYXSize(f.stats, 0).h)
      && d.bitsPerPixel in {8, 16, 24, 32, 48, 96}
      && |d.channelNames| == |ChildrenNamed(ChannelsElement(f.metadata.value), "Channel")|
      && d.dimensionOrder == dims0.dimensionOrder
  {
    PixelBitsAccepted(f.channel0.value);
  }

  /** `loadDimensionsCzi(path, scene)`: the record read, or the default record `dims0` when the
      read fails or the file does not open. */
  method LoadDimensionsCzi(file: Option<CziFile>, dims0: VolumeDimensions) returns (dims: VolumeDimensions)
    ensures file.Some? && CziDimensions(file.value, dims0).Some? ==> dims == CziDimensions(file.value, dims0).value
    ensures file.None? || CziDimensions(file.value, dims0).None? ==> dims == dims0
    ensures dims == dims0 || IsValid(dims)
  {
    if file.None? {
      return dims0;
    }
    var ok, d := ReadCziDimensions(file.value, dims0);
    if !ok {
      return dims0;
    }
    dims := d;
    assert IsValid(dims);
  }

  // ---------------------------------------------------------------------------------------------
  // readCziPlane

  /** Offset of row `y` in the bitmap's bytes, `y * stride`, counted one stride at a time so that
      proofs about the rows stay linear (`RowStartProduct` gives the product). */
  function RowStart(bm: Bitmap, y: nat): nat
  {
    if y == 0 then 0 else RowStart(bm, y - 1) + bm.stride
  }

  lemma {:induction false} RowStartProduct(bm: Bitmap, y: nat)
    ensures RowStart(bm, y) == y * bm.stride
  {
    if y > 0 {
      RowStartProduct(bm, y - 1);
      MulSucc(y - 1, y, bm.stride);
    }
  }

  /** The first `n` bytes of every row lie inside the bitmap's bytes. */
  predicate Covers(bm: Bitmap, n: nat)
  {
    forall y: nat :: y < bm.h ==> RowStart(bm, y) + n <= |bm.data|
  }

  /** The first `n` bytes of row `y`. */
  function Line(bm: Bitmap, n: nat, y: nat): (r: seq<byte>)
    requires Covers(bm, n) && y < bm.h
    ensures |r| == n
  {
    bm.data[RowStart(bm, y)..RowStart(bm, y) + n]
  }

  /** The first `n` bytes of each of the first `rows` rows, one after the other. */
  function Lines(bm: Bitmap, n: nat, rows: nat): seq<byte>
    requires Covers(bm, n) && rows <= bm.h
  {
    if rows == 0 then [] else Lines(bm, n, rows - 1) + Line(bm, n, rows - 1)
  }

  lemma {:induction false} LinesLength(bm: Bitmap, n: nat, rows: nat)
    requires Covers(bm, n) && rows <= bm.h
    ensures |Lines(bm, n, rows)| == rows * n
  {
    if rows > 0 {
      LinesLength(bm, n, rows - 1);
      MulSucc(rows - 1, rows, n);
    }
  }

  lemma LinesNext(bm: Bitmap, n: nat, y: nat, t: nat)
    requires Covers(bm, n) && y < bm.h && t == y + 1
    ensures Lines(bm, n, t) == Lines(bm, n, y) + Line(bm, n, y)
  {
  }

  /** Byte `k` of row `y` in the rows one after the other is byte `k` of that row of the bitmap. */
  lemma {:induction false} LinesAt(bm: Bitmap, n: nat, rows: nat, y: nat, k: nat)
    requires Covers(bm, n) && rows <= bm.h && y < rows && k < n
    ensures 0 <= y * n && y * n + k < rows * n && y * n + k < |Lines(bm, n, rows)|
    ensures Lines(bm, n, rows)[y * n + k] == bm.data[RowStart(bm, y) + k]
  {
    var m := rows - 1;
    LinesNext(bm, n, m, rows);
    LinesLength(bm, n, m);
    MulSucc(m, rows, n);
    if y < m {
      LinesAt(bm, n, m, y, k);
    } else {
      var p := y * n;
      assert p == m * n;
      assert Lines(bm, n, rows)[p + k] == Line(bm, n, m)[k];
    }
  }

  /** The rows `readCziPlane` reads lie inside the bitmap: `2 * w` bytes of each row for 16-bit
      samples, `w` bytes for 8-bit ones. */
  predicate Readable(bm: Bitmap, bpp: u32)
  {
    (bpp == 16 ==> Covers(bm, 2 * bm.w)) && (bpp == 8 ==> Covers(bm, bm.w))
  }

  /** The bytes `readCziPlane` writes for a bitmap: for 16-bit samples the first `2 * w` bytes of
      every row, for 8-bit samples the first `w` bytes of every row widened to 16-bit samples, and
      nothing for any other depth. */
  function PlaneBytes(bm: Bitmap, bpp: u32): (r: seq<byte>)
    requires Readable(bm, bpp)
    ensures |r| == if bpp == 16 || bpp == 8 then bm.h * (2 * bm.w) else 0
  {
    if bpp == 16 then
      LinesLength(bm, 2 * bm.w, bm.h);
      Lines(bm, 2 * bm.w, bm.h)
    else if bpp == 8 then
      LinesLength(bm, bm.w, bm.h);
      MulTwice(bm.h, bm.w);
      Widen(Lines(bm, bm.w, bm.h))
    else []
  }

  /** 16-bit: destination byte `k` of row `y`, at `y * (2 * w) + k`, is byte `k` of source row
      `y`, at `y * stride + k`. */
  lemma Plane16At(bm: Bitmap, y: nat, k: nat)
    requires Readable(bm, 16) && y < bm.h && k < 2 * bm.w
    ensures 0 <= y * (2 * bm.w) && y * (2 * bm.w) + k < |PlaneBytes(bm, 16)|
    ensures PlaneBytes(bm, 16)[y * (2 * bm.w) + k] == bm.data[RowStart(bm, y) + k]
  {
    LinesAt(bm, 2 * bm.w, bm.h, y, k);
  }

  /** 8-bit: destination sample `y * w + x` is byte `x` of source row `y`, at `y * stride + x`. */
  lemma Plane8At(bm: Bitmap, y: nat, x: nat)
    requires Readable(bm, 8) && y < bm.h && x < bm.w
    ensures 0 <= y * bm.w && 2 * (y * bm.w + x) + 1 < |PlaneBytes(bm, 8)|
    ensures Sample16(PlaneBytes(bm, 8), y * bm.w + x) == bm.data[RowStart(bm, y) + x]
  {
    LinesAt(bm, bm.w, bm.h, y, x);
    WidenAt(Lines(bm, bm.w, bm.h), PlaneBytes(bm, 8), y * bm.w + x);
  }

  /** One row of the 16-bit branch: the rows so far take `bytesPerRow * y` bytes, the next one
      ends inside the destination, and it is the next piece of the plane. */
  lemma CopyRowStep(bm: Bitmap, n: nat, y: nat, t: nat, off: nat, len: nat)
    requires Covers(bm, n) && y < bm.h && t == y + 1 && off + |Lines(bm, n, bm.h)| <= len
    ensures |Lines(bm, n, y)| == n * y
    ensures Lines(bm, n, t) == Lines(bm, n, y) + Line(bm, n, y)
    ensures off + |Lines(bm, n, t)| <= len
  {
    LinesNext(bm, n, y, t);
    LinesLength(bm, n, y);
    LinesLength(bm, n, t);
    LinesLength(bm, n, bm.h);
    MulMono(t, bm.h, n);
  }

  /** The 16-bit branch of `readCziPlane`: for each row `y`, `bytesPerRow = w * 2` bytes from
      `y * stride` on, copied to `off + bytesPerRow * y`. */
  method CopyRows(bm: Bitmap, dest: array<byte>, off: nat)
    requires Covers(bm, 2 * bm.w) && off + |Lines(bm, 2 * bm.w, bm.h)| <= dest.Length
    modifies dest
    ensures dest[..] == Overwrite(old(dest[..]), off, Lines(bm, 2 * bm.w, bm.h))
  {
    ghost var a := dest[..];
    var bytesPerRow := bm.w * 2;
    var y: nat := 0;
    while y < bm.h
      invariant y <= bm.h
      invariant off + |Lines(bm, bytesPerRow, y)| <= |a|
      invariant dest[..] == Overwrite(a, off, Lines(bm, bytesPerRow, y))
    {
      CopyRowStep(bm, bytesPerRow, y, y + 1, off, dest.Length);
      CopyAfter(dest, a, off, Lines(bm, bytesPerRow, y), off + bytesPerRow * y, Line(bm, bytesPerRow, y));
      y := y + 1;
    }
  }

  /** One row of the 8-bit branch: the widened rows so far take `bytesPerRow * y` bytes, the
      next one ends inside the destination, and it is the next piece of the plane. */
  lemma WidenRowStep(bm: Bitmap, y: nat, t: nat, off: nat, len: nat)
    requires Covers(bm, bm.w) && y < bm.h && t == y + 1 && off + |Widen(Lines(bm, bm.w, bm.h))| <= len
    ensures |Widen(Lines(bm, bm.w, y))| == bm.w * 2 * y
    ensures Widen(Lines(bm, bm.w, t)) == Widen(Lines(bm, bm.w, y)) + Widen(Line(bm, bm.w, y))
    ensures off + |Widen(Lines(bm, bm.w, t))| <= len
  {
    LinesNext(bm, bm.w, y, t);
    WidenAppend(Lines(bm, bm.w, y), Line(bm, bm.w, y));
    LinesLength(bm, bm.w, y);
    MulTwice(y, bm.w);
    LinesLength(bm, bm.w, t);
    LinesLength(bm, bm.w, bm.h);
    MulMono(t, bm.h, bm.w);
  }

  /** The 8-bit branch of `readCziPlane`: for each row `y`, each of the `w` bytes from
      `y * stride` on stored as a 16-bit sample from `off + bytesPerRow * y` on. */
  method WidenRows(bm: Bitmap, dest: array<byte>, off: nat)
    requires Covers(bm, bm.w) && off + |Widen(Lines(bm, bm.w, bm.h))| <= dest.Length
    modifies dest
    ensures dest[..] == Overwrite(old(dest[..]), off, Widen(Lines(bm, bm.w, bm.h)))
  {
    ghost var a := dest[..];
    var bytesPerRow := bm.w * 2;
    var y: nat := 0;
    while y < bm.h
      invariant y <= bm.h
      invariant off + |Widen(Lines(bm, bm.w, y))| <= |a|
      invariant dest[..] == Overwrite(a, off, Widen(Lines(bm, bm.w, y)))
    {
      WidenRowStep(bm, y, y + 1, off, dest.Length);
      WidenAfter(dest, a, off, Widen(Lines(bm, bm.w, y)), off + bytesPerRow * y, Line(bm, bm.w, y));
      y := y + 1;
    }
  }

  /** `readCziPlane(reader, rect, coord, dims, dest + off)`: the bitmap of the first sub-block at
      the coordinate, if there is one, is written from `off` on (the destination must have room
      for it); the call always reports success. */
  method ReadCziPlane(f: CziFile, rect: Rect, coord: map<Dim, int>, bpp: u32, dest: array<byte>, off: nat)
    returns (ok: bool)
    requires f.subset(coord, rect).Some? ==> Readable(f.subset(coord, rect).value, bpp)
    requires f.subset(coord, rect).Some? ==> off + |PlaneBytes(f.subset(coord, rect).value, bpp)| <= dest.Length
    modifies dest
    ensures ok
    ensures f.subset(coord, rect).None? ==> dest[..] == old(dest[..])
    ensures f.subset(coord, rect).Some? ==>
      dest[..] == Overwrite(old(dest[..]), off, PlaneBytes(f.subset(coord, rect).value, bpp))
  {
    var block := f.subset(coord, rect);
    if block.Some? {
      var bm := block.value;
      if bpp == 16 {
        CopyRows(bm, dest, off);
      } else if bpp == 8 {
        WidenRows(bm, dest, off);
      } else {
        assert PlaneBytes(bm, bpp) == [];
        assert dest[..] == Overwrite(old(dest[..]), off, []);
      }
    }
    ok := true;
  }

  // ---------------------------------------------------------------------------------------------
  // loadCzi

  /** `TryGetInterval`: whether the dimension has bounds, with its start and size; 0 and 0 (the
      callers' initial values) when it has none. */
  function TryGetInterval(b: map<Dim, Interval>, dim: Dim): (bool, int, int)
  {
    if dim in b then (true, b[dim].start, b[dim].size) else (false, 0, 0)
  }

  /** The coordinate of plane (channel, slice) at `time` and `scene`. */
  function PlaneCoord(b: map<Dim, Interval>, channel: int, slice: int, time: int, scene: int): map<Dim, int>
  {
    var z := map[Dim.Z := slice + TryGetInterval(b, Dim.Z).1];
    var zc := if Dim.C in b then z[Dim.C := channel + b[Dim.C].start] else z;
    var zcs := if Dim.S in b then zc[Dim.S := scene + b[Dim.S].start] else zc;
    if Dim.T in b then zcs[Dim.T := time + b[Dim.T].start] else zcs
  }

  /** Z is always set, C, S and T exactly when they have bounds, each to the plane's index plus
      the start of its range, and no other dimension is. */
  lemma PlaneCoordShifted(b: map<Dim, Interval>, channel: int, slice: int, time: int, scene: int)
    ensures var p := PlaneCoord(b, channel, slice, time, scene);
      && Dim.Z in p && p[Dim.Z] == slice + TryGetInterval(b, Dim.Z).1
      && (Dim.C in p <==> Dim.C in b) && (Dim.C in b ==> p[Dim.C] == channel + b[Dim.C].start)
      && (Dim.S in p <==> Dim.S in b) && (Dim.S in b ==> p[Dim.S] == scene + b[Dim.S].start)
      && (Dim.T in p <==> Dim.T in b) && (Dim.T in b ==> p[Dim.T] == time + b[Dim.T].start)
      && forall dim :: dim in p ==> dim == Dim.Z || dim == Dim.C || dim == Dim.S || dim == Dim.T
  {
  }

  /** The sub-block read for plane (channel, slice): the one at its coordinate, within the layer-0
      box of the whole image. */
  function PlaneBlock(f: CziFile, time: int, scene: int, channel: int, slice: int): Option<Bitmap>
  {
    f.subset(PlaneCoord(f.stats.dimBounds, channel, slice, time, scene), f.stats.boundingBoxLayer0Only)
  }

  /** What the plane read writes for a sub-block (nothing when there is none). */
  function BlockBytes(block: Option<Bitmap>, bpp: u32): seq<byte>
  {
    if block.Some? && Readable(block.value, bpp) then PlaneBytes(block.value, bpp) else []
  }

  /** The bytes of every plane, by channel and then slice. */
  function CziPlanes(f: CziFile, d: VolumeDimensions, time: int, scene: int): seq<seq<seq<byte>>>
  {
    seq(d.sizeC, c requires 0 <= c < d.sizeC =>
      seq(d.sizeZ, s requires 0 <= s < d.sizeZ => BlockBytes(PlaneBlock(f, time, scene, c, s), d.bitsPerPixel)))
  }

  /** `rows` holds the bytes of every plane, stated plane by plane. */
  predicate CziRowsOf(f: CziFile, d: VolumeDimensions, time: int, scene: int, rows: seq<seq<seq<byte>>>)
  {
    && |rows| == d.sizeC
    && forall c: u32, s: u32 {:trigger PlaneBlock(f, time, scene, c, s)} :: c < d.sizeC && s < d.sizeZ ==>
         s < |rows[c]| && rows[c][s] == BlockBytes(PlaneBlock(f, time, scene, c, s), d.bitsPerPixel)
  }

  lemma CziPlanesOf(f: CziFile, d: VolumeDimensions, time: int, scene: int)
    ensures CziRowsOf(f, d, time, scene, CziPlanes(f, d, time, scene))
  {
  }

  /** Every sub-block the volume read visits has the extents of the record and the rows the plane
      read reads: what the assertions of `readCziPlane` demand. */
  predicate BlocksFit(f: CziFile, d: VolumeDimensions, time: int, scene: int)
  {
    forall c: u32, s: u32 {:trigger PlaneBlock(f, time, scene, c, s)} ::
      c < d.sizeC && s < d.sizeZ && PlaneBlock(f, time, scene, c, s).Some? ==>
        var bm := PlaneBlock(f, time, scene, c, s).value;
        bm.w == d.sizeX && bm.h == d.sizeY && Readable(bm, d.bitsPerPixel)
  }

  /** The slot `loadCzi` gives each plane, `sizeX * sizeY * bitsPerPixel / 8` bytes, except that
      8-bit files get a slot of 16-bit samples (see `EightBitPlaneOverruns`). */
  function CziSlotSize(d: VolumeDimensions): nat
  {
    if d.bitsPerPixel == 8 then PlaneSize(d) else d.sizeX * d.sizeY * d.bitsPerPixel / 8
  }

  /** A slot holds a plane of the 16-bit image: exactly for 8- and 16-bit files, with room to
      spare for the wider depths. */
  lemma SlotHoldsPlane(d: VolumeDimensions)
    requires d.bitsPerPixel in {8, 16, 24, 32, 48, 96}
    ensures PlaneSize(d) <= CziSlotSize(d)
    ensures d.bitsPerPixel == 8 || d.bitsPerPixel == 16 ==> CziSlotSize(d) == PlaneSize(d)
    ensures d.bitsPerPixel > 16 && 0 < d.sizeX * d.sizeY ==> PlaneSize(d) < CziSlotSize(d)
  {
    var xy := d.sizeX * d.sizeY;
    assert PlaneSize(d) == xy * 2;
    if d.bitsPerPixel != 8 {
      var k := d.bitsPerPixel / 8;
      assert d.bitsPerPixel == k * 8;
      assert xy * d.bitsPerPixel == (xy * k) * 8;
      assert CziSlotSize(d) == xy * k;
      if d.bitsPerPixel > 16 {
        MulMono(3, k, xy);
      }
    }
  }

  /** A plane of an 8- or 16-bit sub-block of the record's extents fills exactly one slot of
      16-bit samples; planes of other depths write nothing. */
  lemma PlaneFillsSlot(d: VolumeDimensions, bm: Bitmap)
    requires bm.w == d.sizeX && bm.h == d.sizeY && Readable(bm, d.bitsPerPixel)
    ensures d.bitsPerPixel == 16 || d.bitsPerPixel == 8 ==> |PlaneBytes(bm, d.bitsPerPixel)| == PlaneSize(d) == CziSlotSize(d)
    ensures d.bitsPerPixel != 16 && d.bitsPerPixel != 8 ==> PlaneBytes(bm, d.bitsPerPixel) == []
    ensures |PlaneBytes(bm, d.bitsPerPixel)| <= CziSlotSize(d)
  {
    assert bm.h * (2 * bm.w) == d.sizeX * d.sizeY * (InMemoryBpp / 8);
    assert d.sizeX * d.sizeY * 16 / 8 == d.sizeX * d.sizeY * 2;
  }

  lemma CziGrid(f: CziFile, d: VolumeDimensions, time: int, scene: int)
    requires BlocksFit(f, d, time, scene)
    ensures Grid(CziPlanes(f, d, time, scene), d.sizeZ, CziSlotSize(d))
  {
    var rows := CziPlanes(f, d, time, scene);
    forall c | 0 <= c < |rows| ensures |rows[c]| == d.sizeZ && Fits(rows[c], CziSlotSize(d)) {
      forall s | 0 <= s < |rows[c]| ensures |rows[c][s]| <= CziSlotSize(d) {
        var block := PlaneBlock(f, time, scene, c, s);
        if block.Some? {
          PlaneFillsSlot(d, block.value);
        }
      }
    }
  }

  /** The slot offset as `loadCzi` computes it, `planesize * (channel * sizeZ + slice)`, is the
      one of the shared layout. */
  lemma CziSlotOffset(c: nat, s: nat, n: nat, size: nat)
    ensures size * (c * n + s) == c * (size * n) + s * size
  {
    assert size * (c * n + s) == size * (c * n) + size * s;
    assert size * (c * n) == c * (size * n);
  }

  /** The volume buffer once every plane is read: the planes by channel, then slice, each in a
      zero-padded slot of `CziSlotSize` bytes. */
  function CziVolume(f: CziFile, d: VolumeDimensions, time: int, scene: int): seq<byte>
  {
    Assemble(Flatten(CziPlanes(f, d, time, scene)), CziSlotSize(d))
  }

  /** The coordinate as the slice loop of `loadCzi` forms it: Z first, then C, S and T for the
      dimensions with bounds. */
  method FormPlaneCoord(b: map<Dim, Interval>, channel: u32, slice: u32, time: int, scene: int)
    returns (planeCoord: map<Dim, int>)
    ensures planeCoord == PlaneCoord(b, channel as int, slice as int, time, scene)
  {
    var (_, startZ, _) := TryGetInterval(b, Dim.Z);
    var (hasC, startC, _) := TryGetInterval(b, Dim.C);
    var (hasS, startS, _) := TryGetInterval(b, Dim.S);
    var (hasT, startT, _) := TryGetInterval(b, Dim.T);
    planeCoord := map[Dim.Z := slice as int + startZ];
    if hasC {
      planeCoord := planeCoord[Dim.C := channel as int + startC];
    }
    if hasS {
      planeCoord := planeCoord[Dim.S := scene + startS];
    }
    if hasT {
      planeCoord := planeCoord[Dim.T := time + startT];
    }
  }

  /** What `rows` and `BlocksFit` say of plane (channel, slice). */
  lemma SlotOf(f: CziFile, d: VolumeDimensions, time: int, scene: int, rows: seq<seq<seq<byte>>>,
               channel: u32, slice: u32)
    requires CziRowsOf(f, d, time, scene, rows) && BlocksFit(f, d, time, scene)
    requires channel < d.sizeC && slice < d.sizeZ
    ensures channel < |rows| && slice < |rows[channel]|
    ensures rows[channel][slice] == BlockBytes(PlaneBlock(f, time, scene, channel, slice), d.bitsPerPixel)
    ensures PlaneBlock(f, time, scene, channel, slice).Some? ==>
      Readable(PlaneBlock(f, time, scene, channel, slice).value, d.bitsPerPixel)
  {
    var block := PlaneBlock(f, time, scene, channel, slice);
  }

  /** Plane (channel, slice) read into its slot, right after the planes read so far. */
  method ReadSlotPlane(f: CziFile, d: VolumeDimensions, time: int, scene: int, buffer: array<byte>,
                     channel: u32, slice: u32, ghost rows: seq<seq<seq<byte>>>)
    requires Grid(rows, d.sizeZ, CziSlotSize(d)) && channel < |rows| && slice < d.sizeZ
    requires rows[channel][slice] == BlockBytes(PlaneBlock(f, time, scene, channel, slice), d.bitsPerPixel)
    requires PlaneBlock(f, time, scene, channel, slice).Some? ==>
      Readable(PlaneBlock(f, time, scene, channel, slice).value, d.bitsPerPixel)
    requires buffer[..] == Written(rows, d.sizeZ, CziSlotSize(d), channel, slice)
    modifies buffer
    ensures buffer[..] == Written(rows, d.sizeZ, CziSlotSize(d), channel, slice + 1)
  {
    var planesize := CziSlotSize(d);
    var destptr := planesize * (channel * d.sizeZ + slice);
    var planeCoord := FormPlaneCoord(f.stats.dimBounds, channel, slice, time, scene);
    CziSlotOffset(channel, slice, d.sizeZ, planesize);
    WrittenStep(rows, d.sizeZ, planesize, channel, slice, slice + 1, destptr);
    var ok := ReadCziPlane(f, f.stats.boundingBoxLayer0Only, planeCoord, d.bitsPerPixel, buffer, destptr);
    if PlaneBlock(f, time, scene, channel, slice).None? {
      assert buffer[..] == Overwrite(old(buffer[..]), destptr, []);
    }
  }

  /** One iteration of the slice loop of `loadCzi`: plane (channel, slice) is read into its slot,
      right after the planes read so far. */
  method ReadCziSlot(f: CziFile, d: VolumeDimensions, time: int, scene: int, buffer: array<byte>,
                     channel: u32, slice: u32, ghost rows: seq<seq<seq<byte>>>)
    requires CziRowsOf(f, d, time, scene, rows) && Grid(rows, d.sizeZ, CziSlotSize(d)) && BlocksFit(f, d, time, scene)
    requires channel < d.sizeC && slice < d.sizeZ
    requires buffer[..] == Written(rows, d.sizeZ, CziSlotSize(d), channel, slice)
    modifies buffer
    ensures buffer[..] == Written(rows, d.sizeZ, CziSlotSize(d), channel, slice + 1)
  {
    SlotOf(f, d, time, scene, rows, channel, slice);
    ReadSlotPlane(f, d, time, scene, buffer, channel, slice, rows);
  }

  /** One pass of the slice loop of `loadCzi`: the planes of `channel` in turn. */
  method ReadCziChannel(f: CziFile, d: VolumeDimensions, time: int, scene: int, buffer: array<byte>,
                        channel: u32, ghost rows: seq<seq<seq<byte>>>)
    requires CziRowsOf(f, d, time, scene, rows) && Grid(rows, d.sizeZ, CziSlotSize(d)) && BlocksFit(f, d, time, scene)
    requires channel < d.sizeC
    requires buffer[..] == Written(rows, d.sizeZ, CziSlotSize(d), channel, 0)
    modifies buffer
    ensures buffer[..] == Written(rows, d.sizeZ, CziSlotSize(d), channel + 1, 0)
  {
    var slice: nat := 0;
    while slice < d.sizeZ
      invariant slice <= d.sizeZ
      invariant buffer[..] == Written(rows, d.sizeZ, CziSlotSize(d), channel, slice)
    {
      ReadCziSlot(f, d, time, scene, buffer, channel, slice, rows);
      slice := slice + 1;
    }
    WrittenRowStart(rows, d.sizeZ, CziSlotSize(d), channel, channel + 1);
  }

  /** The channel loop of `loadCzi`. */
  method ReadCziChannels(f: CziFile, d: VolumeDimensions, time: int, scene: int, buffer: array<byte>,
                         ghost rows: seq<seq<seq<byte>>>)
    requires CziRowsOf(f, d, time, scene, rows) && Grid(rows, d.sizeZ, CziSlotSize(d)) && BlocksFit(f, d, time, scene)
    requires buffer[..] == Written(rows, d.sizeZ, CziSlotSize(d), 0, 0)
    modifies buffer
    ensures buffer[..] == Written(rows, d.sizeZ, CziSlotSize(d), d.sizeC, 0)
  {
    var channel: nat := 0;
    while channel < d.sizeC
      invariant channel <= d.sizeC
      invariant buffer[..] == Written(rows, d.sizeZ, CziSlotSize(d), channel, 0)
    {
      ReadCziChannel(f, d, time, scene, buffer, channel, rows);
      channel := channel + 1;
    }
  }

  /** The allocation and the loops of `loadCzi`: a zeroed buffer of `sizeZ * sizeC` slots, each
      plane read into its own. */
  method ReadCziVolume(f: CziFile, d: VolumeDimensions, time: int, scene: int) returns (data: seq<byte>)
    requires BlocksFit(f, d, time, scene)
    ensures data == CziVolume(f, d, time, scene)
  {
    var planesize: nat := CziSlotSize(d);
    var buffer := new byte[planesize * d.sizeZ * d.sizeC](_ => 0);
    ghost var rows := CziPlanes(f, d, time, scene);
    CziPlanesOf(f, d, time, scene);
    CziGrid(f, d, time, scene);
    assert buffer[..] == Written(rows, d.sizeZ, planesize, 0, 0) by {
      Mul3Reverse(d.sizeC, d.sizeZ, planesize);
    }
    ReadCziChannels(f, d, time, scene, buffer, rows);
    WrittenAll(rows, d.sizeZ, planesize);
    data := buffer[..];
  }

  /** With C bounds, the channel count read is the size of the C range, so the count check of
      `loadCzi` only fails when there are no C bounds. */
  lemma ChannelCountAgrees(f: CziFile, dims0: VolumeDimensions)
    requires CziDimensions(f, dims0).Some? && Dim.C in f.stats.dimBounds
    ensures CziDimensions(f, dims0).value.sizeC == ToU32(f.stats.dimBounds[Dim.C].size)
  {
  }

  /** `loadCzi(path, outDims, time, scene)`: `file` is None when the file does not open (or
      libCZI throws); `outDims` is Some when `*outDims` is written. The dimensions are read from
      the record `dims0`. Each plane goes to a slot of `CziSlotSize` bytes. */
  method LoadCzi(file: Option<CziFile>, dims0: VolumeDimensions, time: i32, scene: i32)
    returns (image: Option<ImageXYZC>, outDims: Option<VolumeDimensions>)
    requires file.Some? && CziDimensions(file.value, dims0).Some?
             && Dim.Z in file.value.stats.dimBounds && Dim.C in file.value.stats.dimBounds ==>
      BlocksFit(file.value, CziDimensions(file.value, dims0).value, time, scene)
    ensures file.None? ==> image.None?
    ensures file.Some? ==>
      var f := file.value;
      var r := CziDimensions(f, dims0);
      && (image.Some? <==> r.Some? && Dim.Z in f.stats.dimBounds && Dim.C in f.stats.dimBounds)
      && (image.Some? ==>
            var d := r.value;
            image.value == ImageXYZC(d.sizeX, d.sizeY, d.sizeZ, d.sizeC, InMemoryBpp,
                                     CziVolume(f, d, time, scene),
                                     d.physicalSizeX, d.physicalSizeY, d.physicalSizeZ, d.channelNames))
    ensures outDims.Some? <==> image.Some?
    ensures outDims.Some? ==> outDims.value == CziDimensions(file.value, dims0).value
  {
    image, outDims := None, None;
    if file.None? {
      return;
    }
    var f := file.value;
    var ok, dims := ReadCziDimensions(f, dims0);
    if !ok {
      return;
    }
    var b := f.stats.dimBounds;
    var (hasZ, startZ, sizeZ) := TryGetInterval(b, Dim.Z);
    var (hasC, startC, sizeC) := TryGetInterval(b, Dim.C);
    if !hasZ {
      return;
    }
    if hasC {
      ChannelCountAgrees(f, dims0);
    }
    if dims.sizeC != ToU32(sizeC) || !hasC {
      return;
    }
    var data := ReadCziVolume(f, dims, time, scene);
    image := Some(ImageXYZC(dims.sizeX, dims.sizeY, dims.sizeZ, dims.sizeC, InMemoryBpp, data,
                            dims.physicalSizeX, dims.physicalSizeY, dims.physicalSizeZ, dims.channelNames));
    outDims := Some(dims);
  }

  // ---------------------------------------------------------------------------------------------
  // The slot size as written

  /** The slot size `loadCzi` computes, `sizeX * sizeY * bitsPerPixel / 8` in 32-bit unsigned
      arithmetic: bytes of the file's depth, while each plane is written as 16-bit samples. */
  function AsWrittenPlaneSize(d: VolumeDimensions): nat
  {
    ToU32(d.sizeX * d.sizeY * d.bitsPerPixel) / 8
  }

  /** For 16-bit files the slot size as written is the slot of 16-bit samples. */
  lemma AsWrittenSixteenBit(d: VolumeDimensions)
    requires d.bitsPerPixel == 16 && d.sizeX * d.sizeY * 16 < TWO32
    ensures AsWrittenPlaneSize(d) == PlaneSize(d)
  {
  }

  /** A block of twice the slot size `p`, written at the last of `z * c` slots, ends past them. */
  lemma LastSlotOverruns(p: nat, z: nat, c: nat)
    requires 0 < p && 0 < z && 0 < c
    ensures p * ((c - 1) * z + (z - 1)) + 2 * p > p * z * c
  {
    var k := (c - 1) * z + (z - 1);
    var zc := z * c;
    assert k + 1 == zc;
    MulSucc(k, zc, p);
    assert p * k == k * p;
    assert p * z * c == zc * p by {
      Mul3Reverse(p, z, c);
    }
  }

  /** For 8-bit files the plane written is twice the slot as written: it runs into the next
      slot, and the write of the last plane ends past the end of the buffer. */
  lemma EightBitPlaneOverruns(d: VolumeDimensions, bm: Bitmap)
    requires d.bitsPerPixel == 8 && bm.w == d.sizeX && bm.h == d.sizeY && Readable(bm, 8)
    requires 0 < d.sizeX * d.sizeY && d.sizeX * d.sizeY * 8 < TWO32
    requires 0 < d.sizeZ && 0 < d.sizeC
    ensures |PlaneBytes(bm, 8)| == 2 * AsWrittenPlaneSize(d)
    ensures AsWrittenPlaneSize(d) < |PlaneBytes(bm, 8)|
    ensures AsWrittenPlaneSize(d) * ((d.sizeC - 1) * d.sizeZ + (d.sizeZ - 1)) + |PlaneBytes(bm, 8)|
          > AsWrittenPlaneSize(d) * d.sizeZ * d.sizeC
  {
    var p := AsWrittenPlaneSize(d);
    assert p == d.sizeX * d.sizeY;
    assert |PlaneBytes(bm, 8)| == 2 * p by {
      assert bm.h * (2 * bm.w) == 2 * (d.sizeX * d.sizeY);
    }
    LastSlotOverruns(p, d.sizeZ, d.sizeC);
  }
}
