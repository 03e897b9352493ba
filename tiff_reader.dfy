/** The TIFF reader of fileReaderTIFF.cpp: choosing a metadata dialect from the image description
    (ImageJ, shape array, OME-XML, none), decoding one plane into 16-bit samples, and reading a whole
    volume plane by plane. libtiff is replaced by the values it reports for an opened file. */
module TiffReader {
  import opened Common
  import opened Text
  import opened Xml
  import opened VolumeDims
  import opened Planes

  /** One image file directory: whether it is tiled, and for each tile or strip the bytes libtiff
      decodes from it, or None when decoding fails. */
  datatype Directory = Directory(tiled: bool, chunks: seq<Option<seq<byte>>>)

  /** An opened TIFF: the tags of its first directory (None when a tag is missing) and all of its
      directories, in file order. */
  datatype TiffFile = TiffFile(
    description: Option<string>,
    width: Option<u32>, height: Option<u32>, bitsPerSample: Option<u32>,
    directories: seq<Directory>)

  /** The number conversions and the XML parser the reader relies on: `std::stoi`, `std::stof`
      (None when it throws), pugixml's `as_int` and `as_float` on a present attribute, and
      `load_string` (None on a parse error). */
  datatype Parsers = Parsers(
    stoi: string -> int,
    stof: string -> Option<real>,
    asInt: string -> int,
    asFloat: string -> real,
    parseXml: string -> Option<Node>)

  /** The metadata dialect the image description selects, checked in this order. */
  datatype Dialect = ImageJ | ShapeArray | OmeXml | Plain

  function DialectOf(desc: string): Dialect
  {
    if StartsWith(desc, "ImageJ=") then ImageJ
    else if StartsWith(desc, "{\"shape\":") then ShapeArray
    else if StartsWith(desc, "<?xml version") && EndsWith(desc, "OME>") then OmeXml
    else Plain
  }

  // ---------------------------------------------------------------------------------------------
  // ImageJ key=value metadata

  /** The name/value pair of one ImageJ line: its '='-tokens must be one (the value is then empty)
      or two. */
  function LineEntry(line: string): Option<(string, string)>
  {
    var t := GetlineTokens(line, '=');
    if |t| == 2 then Some((t[0], t[1]))
    else if |t| == 1 then Some((t[0], ""))
    else None
  }

  /** A line is rejected exactly when it is empty or has two '=' besides a trailing one. */
  lemma LineEntryRejects(line: string)
    ensures LineEntry(line).None? <==>
      line == "" || Count(line, '=') >= (if line[|line| - 1] == '=' then 3 else 2)
  {
    GetlineTokensSpec(line, '=');
  }

  /** The metadata map of the ImageJ lines, later lines overwriting earlier ones; None when a line
      is rejected. */
  function ImageJMetadata(lines: seq<string>): Option<map<string, string>>
  {
    if lines == [] then Some(map[])
    else
      var prev := ImageJMetadata(lines[..|lines| - 1]);
      var e := LineEntry(lines[|lines| - 1]);
      if prev.None? || e.None? then None
      else Some(prev.value[e.value.0 := e.value.1])
  }

  /** The map exists iff every line is a pair. */
  lemma {:induction false} ImageJMetadataExists(lines: seq<string>)
    ensures ImageJMetadata(lines).Some? <==> forall i :: 0 <= i < |lines| ==> LineEntry(lines[i]).Some?
  {
    if lines != [] {
      var n := |lines| - 1;
      ImageJMetadataExists(lines[..n]);
      assert forall i :: 0 <= i < n ==> lines[..n][i] == lines[i];
    }
  }

  /** Some line of `lines` is a pair named `key`. */
  predicate NamesKey(lines: seq<string>, key: string)
  {
    exists i :: 0 <= i < |lines| && LineEntry(lines[i]).Some? && LineEntry(lines[i]).value.0 == key
  }

  /** The keys of the map are the names the lines give. */
  lemma {:induction false} ImageJMetadataKeys(lines: seq<string>)
    requires ImageJMetadata(lines).Some?
    ensures forall key :: key in ImageJMetadata(lines).value <==> NamesKey(lines, key)
  {
    if lines != [] {
      var n := |lines| - 1;
      var init := lines[..n];
      ImageJMetadataKeys(init);
      var m0 := ImageJMetadata(init).value;
      var k := LineEntry(lines[n]).value.0;
      assert ImageJMetadata(lines).value == m0[k := LineEntry(lines[n]).value.1];
      forall key ensures key in m0[k := LineEntry(lines[n]).value.1] <==> NamesKey(lines, key) {
        if key == k {
          assert LineEntry(lines[n]).value.0 == key;
        } else {
          KeyOfInit(lines, n, key);
        }
      }
    }
  }

  /** A key other than the last line's is named by `lines` iff it is named before the last line. */
  lemma KeyOfInit(lines: seq<string>, n: nat, key: string)
    requires n + 1 == |lines| && LineEntry(lines[n]).Some? && LineEntry(lines[n]).value.0 != key
    ensures NamesKey(lines, key) <==> NamesKey(lines[..n], key)
  {
    var init := lines[..n];
    if NamesKey(init, key) {
      var i :| 0 <= i < n && LineEntry(init[i]).Some? && LineEntry(init[i]).value.0 == key;
      assert lines[i] == init[i];
    }
    if NamesKey(lines, key) {
      var i :| 0 <= i < |lines| && LineEntry(lines[i]).Some? && LineEntry(lines[i]).value.0 == key;
      assert init[i] == lines[i];
    }
  }

  /** A key holds the value of the last line naming it: later lines overwrite earlier ones. */
  lemma {:induction false} ImageJMetadataLastWins(lines: seq<string>, i: nat)
    requires ImageJMetadata(lines).Some? && i < |lines| && LineEntry(lines[i]).Some?
    requires forall j :: i < j < |lines| && LineEntry(lines[j]).Some? ==> LineEntry(lines[j]).value.0 != LineEntry(lines[i]).value.0
    ensures LineEntry(lines[i]).value.0 in ImageJMetadata(lines).value
    ensures ImageJMetadata(lines).value[LineEntry(lines[i]).value.0] == LineEntry(lines[i]).value.1
  {
    var n := |lines| - 1;
    var init := lines[..n];
    if i < n {
      assert init[i] == lines[i];
      forall j | i < j < |init| && LineEntry(init[j]).Some?
        ensures LineEntry(init[j]).value.0 != LineEntry(init[i]).value.0
      {
        assert init[j] == lines[j];
      }
      ImageJMetadataLastWins(init, i);
    }
  }

  /** The map after one more line: the entry of line `i` added to the map of the lines before it. */
  lemma ImageJMetadataNext(lines: seq<string>, i: nat)
    requires i < |lines|
    ensures ImageJMetadata(lines[..i + 1]) ==
      var prev, e := ImageJMetadata(lines[..i]), LineEntry(lines[i]);
      if prev.None? || e.None? then None else Some(prev.value[e.value.0 := e.value.1])
  {
    assert lines[..i + 1][..i] == lines[..i];
  }

  /** The line loop of `readTiffDimensions`: each line is split on '=' and entered into the map. */
  method ParseImageJ(lines: seq<string>) returns (ok: bool, meta: map<string, string>)
    ensures ok <==> ImageJMetadata(lines).Some?
    ensures ok ==> meta == ImageJMetadata(lines).value
  {
    meta := map[];
    var i: nat := 0;
    while i < |lines|
      invariant i <= |lines|
      invariant ImageJMetadata(lines[..i]) == Some(meta)
    {
      ImageJMetadataNext(lines, i);
      var namevalue := Split(lines[i], '=');
      if |namevalue| == 2 {
        meta := meta[namevalue[0] := namevalue[1]];
      } else if |namevalue| == 1 {
        meta := meta[namevalue[0] := ""];
      } else {
        ImageJMetadataExists(lines[..i + 1]);
        ImageJMetadataExists(lines);
        assert lines[..i + 1][i] == lines[i];
        return false, meta;
      }
      i := i + 1;
    }
    assert lines[..i] == lines;
    ok := true;
  }

  /** An ImageJ count: the number under `key`, converted to `uint32_t`, or 1 when absent. */
  function ImageJCount(m: map<string, string>, key: string, p: Parsers): u32
  {
    if key in m then ToU32(p.stoi(m[key])) else 1
  }

  /** The voxel size the ImageJ `spacing` gives to all three axes: its absolute value, or 1 when
      it is absent or does not convert. */
  function ImageJSpacing(m: map<string, string>, p: Parsers): real
  {
    if "spacing" !in m then 1.0
    else
      match p.stof(m["spacing"])
      case None => 1.0
      case Some(v) => if v < 0.0 then -v else v
  }

  /** "0", "1", ... up to `n - 1`. */
  function IndexNames(n: nat): seq<string>
  {
    seq(n, i requires 0 <= i < n => NatToString(i))
  }

  /** Index names are pairwise different. */
  lemma IndexNamesDistinct(n: nat)
    ensures forall i, j :: 0 <= i < j < n ==> IndexNames(n)[i] != IndexNames(n)[j]
  {
    forall i, j | 0 <= i < j < n ensures IndexNames(n)[i] != IndexNames(n)[j] {
      NatToStringInjective(i, j);
    }
  }

  /** The `to_string` loop filling `channelNames` with the channel indices. */
  method ChannelIndexNames(n: u32) returns (names: seq<string>)
    ensures names == IndexNames(n)
  {
    names := [];
    var i: u32 := 0;
    while i < n
      invariant i <= n
      invariant names == IndexNames(i)
    {
      names := names + [NatToString(i)];
      i := i + 1;
    }
  }

  /** The record an ImageJ description yields. */
  function ImageJDims(m: map<string, string>, p: Parsers, width: u32, height: u32, bpp: u32): VolumeDimensions
  {
    var sizeC := ImageJCount(m, "channels", p);
    var spacing := ImageJSpacing(m, p);
    VolumeDimensions(width, height, ImageJCount(m, "slices", p), sizeC, ImageJCount(m, "frames", p),
                     "XYCZT", spacing, spacing, spacing, bpp, IndexNames(sizeC))
  }

  // ---------------------------------------------------------------------------------------------
  // OME-XML

  /** Bits per sample of the OME pixel types the reader knows ("complex", "double-complex" and
      "bit" are not among them). */
  const OmePixelTypeBits: map<string, u32> :=
    map["uint8" := 8, "uint16" := 16, "uint32" := 32, "int8" := 8, "int16" := 16, "int32" := 32,
        "float" := 32, "double" := 64]

  /** `mapPixelTypeBPP[t]`: an unknown type is entered with (and reads as) 0. */
  function OmeBits(t: string): u32
  {
    if t in OmePixelTypeBits then OmePixelTypeBits[t] else 0
  }

  /** The lower-cased type is accepted (8 or 16 bits) exactly for the four 8- and 16-bit integer
      types. */
  lemma OmeBitsAccepted(t: string)
    ensures OmeBits(Lower(t)) in {8, 16} <==> Lower(t) in {"uint8", "int8", "uint16", "int16"}
  {
  }

  /** An integer attribute converted to `uint32_t`, or `def` when the attribute is absent. */
  function AttrU32(n: Node, key: string, def: int, p: Parsers): u32
  {
    match AttributeOf(n, key)
    case None => ToU32(def)
    case Some(v) => ToU32(p.asInt(v))
  }

  function AttrReal(n: Node, key: string, def: real, p: Parsers): real
  {
    match AttributeOf(n, key)
    case None => def
    case Some(v) => p.asFloat(v)
  }

  /** The name of OME channel number `i`: its `Name`, else its `ID`, else its index. */
  function ChannelLabel(ch: Node, i: nat): (r: string)
    ensures r != ""
    ensures AsString(AttributeOf(ch, "Name"), "") != "" ==> r == AttributeOf(ch, "Name").value
    ensures AsString(AttributeOf(ch, "Name"), "") == "" && AsString(AttributeOf(ch, "ID"), "") != "" ==>
              r == AttributeOf(ch, "ID").value
    ensures AsString(AttributeOf(ch, "Name"), "") == "" && AsString(AttributeOf(ch, "ID"), "") == "" ==>
              r == NatToString(i)
  {
    var chid := AsString(AttributeOf(ch, "ID"), "");
    var chname := AsString(AttributeOf(ch, "Name"), "");
    if chname != "" then chname else if chid != "" then chid else NatToString(i)
  }

  /** The names of the OME channels, in document order. */
  function ChannelLabels(channels: seq<Node>): (r: seq<string>)
    ensures |r| == |channels|
    ensures forall i :: 0 <= i < |r| ==> r[i] == ChannelLabel(channels[i], i) && r[i] != ""
  {
    seq(|channels|, i requires 0 <= i < |channels| => ChannelLabel(channels[i], i))
  }

  /** The `Channel` loop of the OME branch. */
  method OmeChannelNames(channels: seq<Node>) returns (names: seq<string>)
    ensures |names| == |channels|
    ensures forall i :: 0 <= i < |channels| ==> names[i] == ChannelLabel(channels[i], i)
  {
    names := [];
    var i := 0;
    while i < |channels|
      invariant 0 <= i <= |channels|
      invariant |names| == i
      invariant forall k :: 0 <= k < i ==> names[k] == ChannelLabel(channels[k], k)
    {
      var chel := channels[i];
      var chid := AsString(AttributeOf(chel, "ID"), "");
      var chname := AsString(AttributeOf(chel, "Name"), "");
      if chname != "" {
        names := names + [chname];
      } else if chid != "" {
        names := names + [chid];
      } else {
        names := names + [NatToString(i)];
      }
      assert names[i] == ChannelLabel(channels[i], i);
      i := i + 1;
    }
  }

  /** The record the OME branch reads from the `Pixels` handle it continues with; None when the
      pixel type is not 8 or 16 bits. */
  function OmeDims(pixels: Node, p: Parsers): Option<VolumeDimensions>
  {
    var bits := OmeBits(Lower(AsString(AttributeOf(pixels, "Type"), "uint16")));
    if bits != 16 && bits != 8 then None
    else
      var channels := ChildrenNamed(pixels, "Channel");
      Some(VolumeDimensions(
        AttrU32(pixels, "SizeX", 0, p), AttrU32(pixels, "SizeY", 0, p), AttrU32(pixels, "SizeZ", 0, p),
        AttrU32(pixels, "SizeC", 0, p), AttrU32(pixels, "SizeT", 0, p),
        AsString(AttributeOf(pixels, "DimensionOrder"), "XYCZT"),
        AttrReal(pixels, "PhysicalSizeX", 1.0, p), AttrReal(pixels, "PhysicalSizeY", 1.0, p),
        AttrReal(pixels, "PhysicalSizeZ", 1.0, p),
        bits,
        ChannelLabels(channels)))
  }

  /** The OME-XML branch: None where it returns false before assigning the record. As written,
      the test on the `Pixels` handle is inverted and the handle is looked up on the document node
      itself. */
  function OmeBranch(desc: string, p: Parsers): Option<VolumeDimensions>
  {
    var doc := p.parseXml(desc);
    if doc.None? then None
    else
      var pixels := Child(doc.value, "Pixels");
      if pixels != Null then None else OmeDims(pixels, p)
  }

  /** The ImageJ branch: None when some line is rejected. */
  function ImageJBranch(desc: string, p: Parsers, width: u32, height: u32, bpp: u32): Option<VolumeDimensions>
  {
    var meta := ImageJMetadata(GetlineTokens(desc, '\n'));
    if meta.None? then None else Some(ImageJDims(meta.value, p, width, height, bpp))
  }

  // ---------------------------------------------------------------------------------------------
  // readTiffDimensions

  /** The end of `readTiffDimensions`: a record that was assigned is then validated. */
  function Finish(r: Option<VolumeDimensions>, dims0: VolumeDimensions): (bool, VolumeDimensions)
  {
    if r.None? then (false, dims0) else (IsValid(r.value), r.value)
  }

  /** `readTiffDimensions(tiff, path, dims)`: whether it succeeds, and the record `dims` holds
      afterwards (`dims0` when it returns before assigning). The shape-array branch assigns
      nothing: its length test rejects every list. */
  function TiffDimensions(f: TiffFile, p: Parsers, dims0: VolumeDimensions): (bool, VolumeDimensions)
    requires |f.directories| < TWO32
  {
    if f.description.None? || f.width.None? || f.height.None? || f.bitsPerSample.None? then (false, dims0)
    else
      var desc := f.description.value;
      var width, height, bpp := f.width.value, f.height.value, f.bitsPerSample.value;
      Finish(DialectBranch(desc, p, width, height, bpp, |f.directories|), dims0)
  }

  /** The record the dialect of `desc` assigns, or None where its branch returns false first; the
      fallback takes one slice per directory. */
  function DialectBranch(desc: string, p: Parsers, width: u32, height: u32, bpp: u32, directories: u32): Option<VolumeDimensions>
  {
    match DialectOf(desc)
    case ImageJ => ImageJBranch(desc, p, width, height, bpp)
    case ShapeArray => None
    case OmeXml => OmeBranch(desc, p)
    case Plain => Some(VolumeDimensions(width, height, directories, 1, 1, "XYCZT", 1.0, 1.0, 1.0, bpp, ["0"]))
  }

  /** A successful read yields a valid record. */
  lemma TiffDimensionsValid(f: TiffFile, p: Parsers, dims0: VolumeDimensions)
    requires |f.directories| < TWO32
    ensures TiffDimensions(f, p, dims0).0 ==> IsValid(TiffDimensions(f, p, dims0).1)
  {
  }

  /** The ImageJ branch of `readTiffDimensions`, up to the assignment of the record. */
  method ReadImageJ(desc: string, p: Parsers, width: u32, height: u32, bpp: u32) returns (r: Option<VolumeDimensions>)
    ensures r == ImageJBranch(desc, p, width, height, bpp)
  {
    var sizeT: u32, sizeZ: u32, sizeC: u32 := 1, 1, 1;
    var physicalSizeX, physicalSizeY, physicalSizeZ := 1.0, 1.0, 1.0;
    var sl := Split(desc, '\n');
    var good, meta := ParseImageJ(sl);
    if !good {
      return None;
    }
    if "channels" in meta {
      sizeC := ToU32(p.stoi(meta["channels"]));
    }
    assert sizeC == ImageJCount(meta, "channels", p);
    if "slices" in meta {
      sizeZ := ToU32(p.stoi(meta["slices"]));
    }
    assert sizeZ == ImageJCount(meta, "slices", p);
    if "frames" in meta {
      sizeT := ToU32(p.stoi(meta["frames"]));
    }
    assert sizeT == ImageJCount(meta, "frames", p);
    if "spacing" in meta {
      var v := p.stof(meta["spacing"]);
      if v.Some? {
        physicalSizeZ := v.value;
        if physicalSizeZ < 0.0 {
          physicalSizeZ := -physicalSizeZ;
        }
        physicalSizeX := physicalSizeZ;
        physicalSizeY := physicalSizeZ;
      } else {
        physicalSizeZ := 1.0;
      }
    }
    assert physicalSizeX == physicalSizeY == physicalSizeZ == ImageJSpacing(meta, p);
    var channelNames := ChannelIndexNames(sizeC);
    r := Some(VolumeDimensions(width, height, sizeZ, sizeC, sizeT, "XYCZT",
                               physicalSizeX, physicalSizeY, physicalSizeZ, bpp, channelNames));
  }

  /** The OME-XML branch of `readTiffDimensions`, up to the assignment of the record. */
  method ReadOme(desc: string, p: Parsers) returns (r: Option<VolumeDimensions>)
    ensures r == OmeBranch(desc, p)
  {
    var doc := p.parseXml(desc);
    if doc.None? {
      return None;
    }
    var pixelsEl := Child(doc.value, "Pixels");
    if pixelsEl != Null {
      return None;
    }
    var pixelType := Lower(AsString(AttributeOf(pixelsEl, "Type"), "uint16"));
    var bpp := OmeBits(pixelType);
    if bpp != 16 && bpp != 8 {
      return None;
    }
    var channels := ChildrenNamed(pixelsEl, "Channel");
    var channelNames := OmeChannelNames(channels);
    assert channelNames == ChannelLabels(channels);
    r := Some(VolumeDimensions(
      AttrU32(pixelsEl, "SizeX", 0, p), AttrU32(pixelsEl, "SizeY", 0, p), AttrU32(pixelsEl, "SizeZ", 0, p),
      AttrU32(pixelsEl, "SizeC", 0, p), AttrU32(pixelsEl, "SizeT", 0, p),
      AsString(AttributeOf(pixelsEl, "DimensionOrder"), "XYCZT"),
      AttrReal(pixelsEl, "PhysicalSizeX", 1.0, p), AttrReal(pixelsEl, "PhysicalSizeY", 1.0, p),
      AttrReal(pixelsEl, "PhysicalSizeZ", 1.0, p),
      bpp, channelNames));
  }

  /** The shape-array branch of `readTiffDimensions`: it always returns before assigning. */
  method ReadShapeArray(desc: string) returns (reached: bool)
    ensures !reached
  {
    var firstBracket := FindChar(desc, '[');
    var lastBracket := RFindChar(desc, ']');
    var shape := Substr(desc, firstBracket + 1, lastBracket - firstBracket - 1);
    var shapelist := Split(shape, ',');
    // As written, this test holds for every list length.
    if |shapelist| != 4 || |shapelist| != 5 {
      return false;
    }
    assert false;
  }

  /** The directory walk of the fallback branch: `TIFFSetDirectory(tiff, n)` succeeds while `n`
      names a directory. */
  method CountDirectories(f: TiffFile) returns (sizeZ: u32)
    requires |f.directories| < TWO32
    ensures sizeZ == |f.directories|
  {
    sizeZ := 0;
    while sizeZ < |f.directories|
      invariant sizeZ <= |f.directories|
    {
      sizeZ := sizeZ + 1;
    }
  }

  method ReadTiffDimensions(f: TiffFile, p: Parsers, dims0: VolumeDimensions) returns (ok: bool, dims: VolumeDimensions)
    requires |f.directories| < TWO32
    ensures (ok, dims) == TiffDimensions(f, p, dims0)
  {
    ok, dims := false, dims0;
    if f.description.None? || f.width.None? || f.height.None? || f.bitsPerSample.None? {
      return;
    }
    var desc := f.description.value;
    var width, height, bpp := f.width.value, f.height.value, f.bitsPerSample.value;
    var r: Option<VolumeDimensions>;
    match DialectOf(desc) {
      case ImageJ =>
        r := ReadImageJ(desc, p, width, height, bpp);
      case ShapeArray =>
        var reached := ReadShapeArray(desc);
        r := None;
      case OmeXml =>
        r := ReadOme(desc, p);
      case Plain =>
        var sizeZ := CountDirectories(f);
        r := Some(VolumeDimensions(width, height, sizeZ, 1, 1, "XYCZT", 1.0, 1.0, 1.0, bpp, ["0"]));
    }
    if r.None? {
      return;
    }
    dims := r.value;
    ok := Validate(dims);
  }

  /** With an ImageJ description the read is the ImageJ branch, then validation. */
  lemma TiffDimensionsImageJ(f: TiffFile, p: Parsers, dims0: VolumeDimensions)
    requires |f.directories| < TWO32
    requires f.description.Some? && f.width.Some? && f.height.Some? && f.bitsPerSample.Some?
    requires DialectOf(f.description.value) == ImageJ
    ensures TiffDimensions(f, p, dims0)
         == Finish(ImageJBranch(f.description.value, p, f.width.value, f.height.value, f.bitsPerSample.value), dims0)
  {
  }

  /** An ImageJ description without `channels`, `slices`, `frames` and `spacing` lines yields one
      channel named "0", one slice, one time point, unit voxels and the order "XYCZT". */
  lemma ImageJDefaults(f: TiffFile, p: Parsers, dims0: VolumeDimensions)
    requires |f.directories| < TWO32
    requires f.description.Some? && f.width.Some? && f.height.Some? && f.bitsPerSample.Some?
    requires DialectOf(f.description.value) == ImageJ
    requires var lines := GetlineTokens(f.description.value, '\n');
      forall i :: 0 <= i < |lines| ==>
        LineEntry(lines[i]).Some? && LineEntry(lines[i]).value.0 !in {"channels", "slices", "frames", "spacing"}
    ensures var (ok, d) := TiffDimensions(f, p, dims0);
      && d.sizeZ == 1 && d.sizeC == 1 && d.sizeT == 1 && d.dimensionOrder == "XYCZT"
      && d.physicalSizeX == d.physicalSizeY == d.physicalSizeZ == 1.0 && d.channelNames == ["0"]
      && (ok <==> f.width.value > 0 && f.height.value > 0)
  {
    var lines := GetlineTokens(f.description.value, '\n');
    TiffDimensionsImageJ(f, p, dims0);
    ImageJMetadataExists(lines);
    ImageJMetadataKeys(lines);
    var m := ImageJMetadata(lines).value;
    assert "channels" !in m && "slices" !in m && "frames" !in m && "spacing" !in m;
    assert IndexNames(1) == ["0"];
    var d := ImageJDims(m, p, f.width.value, f.height.value, f.bitsPerSample.value);
    assert IsAxisOrder(d.dimensionOrder);
    AxisOrderValid(d);
  }

  /** A rejected ImageJ line makes the read fail without touching the record. */
  lemma ImageJBadLineFails(f: TiffFile, p: Parsers, dims0: VolumeDimensions, k: nat)
    requires |f.directories| < TWO32
    requires f.description.Some? && f.width.Some? && f.height.Some? && f.bitsPerSample.Some?
    requires DialectOf(f.description.value) == ImageJ
    requires k < |GetlineTokens(f.description.value, '\n')|
    requires LineEntry(GetlineTokens(f.description.value, '\n')[k]).None?
    ensures TiffDimensions(f, p, dims0) == (false, dims0)
  {
    ImageJMetadataExists(GetlineTokens(f.description.value, '\n'));
  }

  /** The OME-XML branch never succeeds as written: either the document has a top-level `Pixels`
      element and the inverted test rejects it, or the branch continues with the null handle, whose
      sizes all read as 0. */
  lemma OmeXmlAlwaysFails(f: TiffFile, p: Parsers, dims0: VolumeDimensions)
    requires |f.directories| < TWO32
    requires f.description.Some? && DialectOf(f.description.value) == OmeXml
    ensures !TiffDimensions(f, p, dims0).0
  {
    var r := OmeBranch(f.description.value, p);
    if r.Some? {
      assert r == OmeDims(Null, p);
      OmeNullInvalid(p);
    }
  }

  /** The null handle has no attributes: every size reads as 0 and the record is invalid. */
  lemma OmeNullInvalid(p: Parsers)
    ensures OmeDims(Null, p).Some? ==> !IsValid(OmeDims(Null, p).value)
  {
    if OmeDims(Null, p).Some? {
      assert OmeDims(Null, p).value.sizeX == AttrU32(Null, "SizeX", 0, p) == 0;
      assert !Holds(SizeXPositive, OmeDims(Null, p).value);
    }
  }

  /** The shape-array branch never succeeds, and leaves the record as it was. */
  lemma ShapeArrayAlwaysFails(f: TiffFile, p: Parsers, dims0: VolumeDimensions)
    requires |f.directories| < TWO32
    requires f.description.Some? && DialectOf(f.description.value) == ShapeArray
    ensures TiffDimensions(f, p, dims0) == (false, dims0)
  {
  }

  /** A description without a recognised dialect gives one slice per directory and one channel
      named "0". */
  lemma PlainCountsDirectories(f: TiffFile, p: Parsers, dims0: VolumeDimensions)
    requires |f.directories| < TWO32
    requires f.description.Some? && f.width.Some? && f.height.Some? && f.bitsPerSample.Some?
    requires DialectOf(f.description.value) == Plain
    ensures var (ok, d) := TiffDimensions(f, p, dims0);
      d.sizeZ == |f.directories| && d.sizeC == 1 && d.sizeT == 1 && d.channelNames == ["0"]
      && (ok ==> |f.directories| > 0)
  {
    var d := TiffDimensions(f, p, dims0).1;
    assert IsValid(d) ==> Holds(SizeZPositive, d);
  }

  // ---------------------------------------------------------------------------------------------
  // readTiffPlane

  /** What each decoded chunk contributes to the destination: 16-bit samples verbatim, 8-bit
      samples widened. */
  function Converted(chunk: seq<byte>, bpp: u32): seq<byte>
  {
    if bpp == InMemoryBpp then chunk else Widen(chunk)
  }

  /** The strip loop: whether it completes, and the bytes it writes before it stops. A strip that
      fails to decode, or a depth other than 8 or 16, stops it; a depth is only looked at once a
      strip has been decoded. */
  function StripsRead(strips: seq<Option<seq<byte>>>, bpp: u32): (bool, seq<byte>)
  {
    if strips == [] then (true, [])
    else if strips[0].None? || (bpp != InMemoryBpp && bpp != 8) then (false, [])
    else
      var (ok, rest) := StripsRead(strips[1..], bpp);
      (ok, Converted(strips[0].value, bpp) + rest)
  }

  /** `readTiffPlane` on one directory: whether it succeeds and the bytes it writes from the
      destination pointer on. */
  function PlaneRead(dir: Directory, bpp: u32): (bool, seq<byte>)
  {
    if dir.tiled then
      if |dir.chunks| != 1 || dir.chunks[0].None? then (false, [])
      else if bpp == InMemoryBpp then (true, dir.chunks[0].value)
      else if bpp != 8 then (false, [])
      else (true, Widen(dir.chunks[0].value))
    else StripsRead(dir.chunks, bpp)
  }

  /** The decoded bytes of all strips, in order. */
  function Concat(strips: seq<Option<seq<byte>>>): seq<byte>
  {
    if strips == [] then [] else (if strips[0].Some? then strips[0].value else []) + Concat(strips[1..])
  }

  /** A stripped plane read succeeds iff every strip decodes and, when there is a strip, the depth
      is 8 or 16; it then writes the strips concatenated, verbatim for 16 bits and widened for
      8 bits. */
  lemma {:induction false} StripsReadSpec(strips: seq<Option<seq<byte>>>, bpp: u32)
    ensures StripsRead(strips, bpp).0 <==>
      (forall i :: 0 <= i < |strips| ==> strips[i].Some?) && (strips != [] ==> bpp in {8, 16})
    ensures StripsRead(strips, bpp).0 && bpp == 16 ==> StripsRead(strips, bpp).1 == Concat(strips)
    ensures StripsRead(strips, bpp).0 && bpp == 8 ==> StripsRead(strips, bpp).1 == Widen(Concat(strips))
  {
    if strips != [] {
      StripsReadSpec(strips[1..], bpp);
      assert forall i :: 1 <= i < |strips| ==> strips[i] == strips[1..][i - 1];
      if strips[0].Some? {
        WidenAppend(strips[0].value, Concat(strips[1..]));
      }
    }
  }

  /** The tiled half of `readTiffPlane`: the single tile of the directory, copied or widened. */
  method ReadTile(dir: Directory, bpp: u32, dest: array<byte>, off: nat) returns (ok: bool)
    requires dir.tiled && off + |PlaneRead(dir, bpp).1| <= dest.Length
    modifies dest
    ensures ok == PlaneRead(dir, bpp).0
    ensures dest[..] == Overwrite(old(dest[..]), off, PlaneRead(dir, bpp).1)
  {
    if |dir.chunks| != 1 || dir.chunks[0].None? {
      return false;
    }
    var buf := dir.chunks[0].value;
    if bpp == InMemoryBpp {
      CopyInto(buf, dest, off);
    } else {
      if bpp != 8 {
        return false;
      }
      WidenInto(buf, dest, off);
    }
    return true;
  }

  /** The strip loop has written `written` and has strips `k` on left: the whole read is that
      prefix followed by the read of the remaining strips. */
  predicate StripsSplit(strips: seq<Option<seq<byte>>>, bpp: u32, k: nat, written: seq<byte>)
    requires k <= |strips|
  {
    StripsRead(strips, bpp) == (StripsRead(strips[k..], bpp).0, written + StripsRead(strips[k..], bpp).1)
  }

  /** A strip that fails to decode, or a depth other than 8 or 16, ends the read there. */
  lemma StripsStop(strips: seq<Option<seq<byte>>>, bpp: u32, k: nat, written: seq<byte>)
    requires k < |strips| && StripsSplit(strips, bpp, k, written)
    requires strips[k].None? || (bpp != InMemoryBpp && bpp != 8)
    ensures StripsRead(strips, bpp) == (false, written)
  {
    assert written + [] == written;
  }

  /** A decoded strip adds its converted bytes to what the loop has written. */
  lemma StripsNext(strips: seq<Option<seq<byte>>>, bpp: u32, k: nat, t: nat, written: seq<byte>)
    requires k < |strips| && t == k + 1 && StripsSplit(strips, bpp, k, written)
    requires strips[k].Some? && (bpp == InMemoryBpp || bpp == 8)
    ensures StripsSplit(strips, bpp, t, written + Converted(strips[k].value, bpp))
  {
    assert strips[k..][1..] == strips[t..];
    var piece := Converted(strips[k].value, bpp);
    var rest := StripsRead(strips[t..], bpp);
    assert StripsRead(strips[k..], bpp) == (rest.0, piece + rest.1);
    assert written + (piece + rest.1) == (written + piece) + rest.1;
  }

  /** The stripped half of `readTiffPlane`: each strip in turn, written after the previous one. */
  method ReadStrips(strips: seq<Option<seq<byte>>>, bpp: u32, dest: array<byte>, off: nat) returns (ok: bool)
    requires off + |StripsRead(strips, bpp).1| <= dest.Length
    modifies dest
    ensures ok == StripsRead(strips, bpp).0
    ensures dest[..] == Overwrite(old(dest[..]), off, StripsRead(strips, bpp).1)
  {
    ghost var written: seq<byte> := [];
    var pos := off;
    var strip: nat := 0;
    assert strips[0..] == strips;
    assert written + StripsRead(strips, bpp).1 == StripsRead(strips, bpp).1;
    while strip < |strips|
      invariant strip <= |strips|
      invariant pos == off + |written|
      invariant StripsSplit(strips, bpp, strip, written)
      invariant dest[..] == Overwrite(old(dest[..]), off, written)
    {
      var buf := strips[strip];
      if buf.None? || (bpp != InMemoryBpp && bpp != 8) {
        StripsStop(strips, bpp, strip, written);
        return false;
      }
      var piece := Converted(buf.value, bpp);
      StripsNext(strips, bpp, strip, strip + 1, written);
      if bpp == InMemoryBpp {
        CopyInto(buf.value, dest, pos);
      } else {
        WidenInto(buf.value, dest, pos);
      }
      OverwriteAppend(old(dest[..]), off, written, piece);
      pos := pos + |piece|;
      written := written + piece;
      strip := strip + 1;
    }
    assert strips[strip..] == [];
    assert written + [] == written;
    return true;
  }

  /** `readTiffPlane(tiff, planeIndex, dims, dest + off)`. The destination must have room for what
      the plane writes. */
  method ReadTiffPlane(f: TiffFile, planeIndex: u32, bpp: u32, dest: array<byte>, off: nat) returns (ok: bool)
    requires off <= dest.Length
    requires planeIndex < |f.directories| ==> off + |PlaneRead(f.directories[planeIndex], bpp).1| <= dest.Length
    modifies dest
    ensures planeIndex >= |f.directories| ==> !ok && dest[..] == old(dest[..])
    ensures planeIndex < |f.directories| ==>
      var (good, written) := PlaneRead(f.directories[planeIndex], bpp);
      ok == good && dest[..] == Overwrite(old(dest[..]), off, written)
  {
    if planeIndex >= |f.directories| {
      return false;
    }
    var dir := f.directories[planeIndex];
    if dir.tiled {
      ok := ReadTile(dir, bpp, dest, off);
    } else {
      ok := ReadStrips(dir.chunks, bpp, dest, off);
    }
  }

  // ---------------------------------------------------------------------------------------------
  // loadOMETiff

  /** Reading plane (channel, slice) of time point `time`. */
  function PlaneAt(f: TiffFile, d: VolumeDimensions, time: i32, channel: u32, slice: u32): (bool, seq<byte>)
  {
    var planeIndex := GetPlaneIndex(d, slice, channel, ToU32(time));
    if planeIndex < |f.directories| then PlaneRead(f.directories[planeIndex], d.bitsPerPixel) else (false, [])
  }

  /** Whether the strip loop completes, without the bytes it writes. */
  function StripsOk(strips: seq<Option<seq<byte>>>, bpp: u32): bool
  {
    strips == [] || (strips[0].Some? && (bpp == InMemoryBpp || bpp == 8) && StripsOk(strips[1..], bpp))
  }

  lemma {:induction false} StripsOkIsRead(strips: seq<Option<seq<byte>>>, bpp: u32)
    ensures StripsOk(strips, bpp) == StripsRead(strips, bpp).0
  {
    if strips != [] {
      StripsOkIsRead(strips[1..], bpp);
    }
  }

  /** Whether `readTiffPlane` succeeds on plane (channel, slice) of time point `time`. */
  predicate PlaneOk(f: TiffFile, d: VolumeDimensions, time: i32, channel: u32, slice: u32)
  {
    var planeIndex := GetPlaneIndex(d, slice, channel, ToU32(time));
    && planeIndex < |f.directories|
    && var dir := f.directories[planeIndex];
       if dir.tiled then |dir.chunks| == 1 && dir.chunks[0].Some? && (d.bitsPerPixel == InMemoryBpp || d.bitsPerPixel == 8)
       else StripsOk(dir.chunks, d.bitsPerPixel)
  }

  lemma PlaneOkIsRead(f: TiffFile, d: VolumeDimensions, time: i32, channel: u32, slice: u32)
    ensures PlaneOk(f, d, time, channel, slice) == PlaneAt(f, d, time, channel, slice).0
  {
    var planeIndex := GetPlaneIndex(d, slice, channel, ToU32(time));
    if planeIndex < |f.directories| {
      StripsOkIsRead(f.directories[planeIndex].chunks, d.bitsPerPixel);
    }
  }

  /** The bytes of every plane, by channel and then slice. */
  function PlaneRows(f: TiffFile, d: VolumeDimensions, time: i32): seq<seq<seq<byte>>>
  {
    seq(d.sizeC, c requires 0 <= c < d.sizeC =>
      seq(d.sizeZ, s requires 0 <= s < d.sizeZ => PlaneAt(f, d, time, c, s).1))
  }

  /** `rows` holds the bytes of every plane; stated plane by plane, so that only the planes a
      proof names are unfolded. */
  predicate RowsOf(f: TiffFile, d: VolumeDimensions, time: i32, rows: seq<seq<seq<byte>>>)
  {
    && |rows| == d.sizeC
    && forall c: u32, s: u32 {:trigger PlaneAt(f, d, time, c, s)} :: c < d.sizeC && s < d.sizeZ ==>
         s < |rows[c]| && rows[c][s] == PlaneAt(f, d, time, c, s).1
  }

  lemma PlaneRowsOf(f: TiffFile, d: VolumeDimensions, time: i32)
    ensures RowsOf(f, d, time, PlaneRows(f, d, time))
  {
  }

  /** Whether each plane reads, by channel and then slice. */
  function PlaneOks(f: TiffFile, d: VolumeDimensions, time: i32): seq<seq<bool>>
  {
    seq(d.sizeC, c requires 0 <= c < d.sizeC =>
      seq(d.sizeZ, s requires 0 <= s < d.sizeZ => PlaneOk(f, d, time, c, s)))
  }

  /** `oks` says whether each plane reads, plane by plane as `RowsOf`. */
  predicate OksOf(f: TiffFile, d: VolumeDimensions, time: i32, oks: seq<seq<bool>>)
  {
    && |oks| == d.sizeC
    && (forall c :: 0 <= c < |oks| ==> |oks[c]| == d.sizeZ)
    && forall c: u32, s: u32 {:trigger PlaneOk(f, d, time, c, s)} :: c < d.sizeC && s < d.sizeZ ==>
         oks[c][s] == PlaneOk(f, d, time, c, s)
  }

  /** `PlaneOks` is the success of every plane. */
  lemma PlaneOksOf(f: TiffFile, d: VolumeDimensions, time: i32)
    ensures OksOf(f, d, time, PlaneOks(f, d, time))
    ensures AllPlanesRead(f, d, time) <==>
      forall c, s :: 0 <= c < d.sizeC && 0 <= s < d.sizeZ ==> PlaneOks(f, d, time)[c][s]
  {
    var oks := PlaneOks(f, d, time);
    forall c: u32, s: u32 | c < d.sizeC && s < d.sizeZ
      ensures oks[c][s] == PlaneAt(f, d, time, c, s).0
    {
      PlaneOkIsRead(f, d, time, c, s);
    }
  }

  /** No plane of time point `time` writes more than one slot holds: the assumption the reader
      makes of `dataPtr`. */
  predicate PlanesFit(f: TiffFile, d: VolumeDimensions, time: i32)
  {
    forall c: u32, s: u32 {:trigger PlaneAt(f, d, time, c, s)} :: c < d.sizeC && s < d.sizeZ ==>
      |PlaneAt(f, d, time, c, s).1| <= PlaneSize(d)
  }

  /** The volume buffer when every plane reads: the planes by channel, then slice, each in a
      zero-padded slot of `PlaneSize(d)` bytes. */
  function VolumeBytes(f: TiffFile, d: VolumeDimensions, time: i32): seq<byte>
  {
    Assemble(Flatten(PlaneRows(f, d, time)), PlaneSize(d))
  }

  predicate AllPlanesRead(f: TiffFile, d: VolumeDimensions, time: i32)
  {
    forall c: u32, s: u32 :: c < d.sizeC && s < d.sizeZ ==> PlaneAt(f, d, time, c, s).0
  }

  lemma RowsGrid(f: TiffFile, d: VolumeDimensions, time: i32)
    requires PlanesFit(f, d, time)
    ensures Grid(PlaneRows(f, d, time), d.sizeZ, PlaneSize(d))
  {
  }

  /** `(int32_t)(sizeT - 1)`, the last time point as the gate compares it. */
  function LastTime(d: VolumeDimensions): i32
  {
    ToI32(d.sizeT - 1)
  }

  /** One iteration of the slice loop of `loadOMETiff`: plane `getPlaneIndex(slice, channel, time)`
      read into its slot at `channel * channelsize + slice * planesize`, right after the planes
      read so far. */
  method ReadSlot(f: TiffFile, d: VolumeDimensions, time: i32, buffer: array<byte>, channel: u32, slice: u32,
                  ghost rows: seq<seq<seq<byte>>>, ghost oks: seq<seq<bool>>)
    returns (ok: bool)
    requires RowsOf(f, d, time, rows) && OksOf(f, d, time, oks) && Grid(rows, d.sizeZ, PlaneSize(d))
    requires channel < d.sizeC && slice < d.sizeZ
    requires buffer[..] == Written(rows, d.sizeZ, PlaneSize(d), channel, slice)
    modifies buffer
    ensures ok == oks[channel][slice]
    ensures ok ==> buffer[..] == Written(rows, d.sizeZ, PlaneSize(d), channel, slice + 1)
  {
    var planesize: nat := d.sizeX * d.sizeY * (InMemoryBpp / 8);
    var channelsize := planesize * d.sizeZ;
    var planeIndex := GetPlaneIndex(d, slice, channel, ToU32(time));
    var destptr := channel * channelsize + slice * planesize;
    assert rows[channel][slice] == PlaneAt(f, d, time, channel, slice).1;
    assert Fits(rows[channel], planesize);
    SlotInside(channel, slice, d.sizeC, d.sizeZ, planesize, |rows[channel][slice]|);
    PlaneOkIsRead(f, d, time, channel, slice);
    ok := ReadTiffPlane(f, planeIndex, d.bitsPerPixel, buffer, destptr);
  }

  /** One pass of the slice loop of `loadOMETiff`: the planes of `channel` in turn; the first
      plane that fails ends the pass. */
  method ReadChannel(f: TiffFile, d: VolumeDimensions, time: i32, buffer: array<byte>, channel: u32,
                     ghost rows: seq<seq<seq<byte>>>, ghost oks: seq<seq<bool>>)
    returns (ok: bool)
    requires RowsOf(f, d, time, rows) && OksOf(f, d, time, oks) && Grid(rows, d.sizeZ, PlaneSize(d))
    requires channel < d.sizeC
    requires buffer[..] == Written(rows, d.sizeZ, PlaneSize(d), channel, 0)
    modifies buffer
    ensures ok <==> forall s :: 0 <= s < d.sizeZ ==> oks[channel][s]
    ensures ok ==> buffer[..] == Written(rows, d.sizeZ, PlaneSize(d), channel + 1, 0)
  {
    ghost var row := oks[channel];
    var slice: nat := 0;
    while slice < d.sizeZ
      invariant slice <= d.sizeZ
      invariant buffer[..] == Written(rows, d.sizeZ, PlaneSize(d), channel, slice)
      invariant forall s :: 0 <= s < slice ==> row[s]
    {
      ok := ReadSlot(f, d, time, buffer, channel, slice, rows, oks);
      if !ok {
        assert !row[slice];
        return;
      }
      slice := slice + 1;
    }
    assert forall s :: 0 <= s < d.sizeZ ==> row[s];
    WrittenRowStart(rows, d.sizeZ, PlaneSize(d), channel, channel + 1);
    ok := true;
  }

  /** The channel loop of `loadOMETiff`: the channels in turn, until one fails. */
  method ReadChannels(f: TiffFile, d: VolumeDimensions, time: i32, buffer: array<byte>,
                      ghost rows: seq<seq<seq<byte>>>, ghost oks: seq<seq<bool>>)
    returns (ok: bool)
    requires RowsOf(f, d, time, rows) && OksOf(f, d, time, oks) && Grid(rows, d.sizeZ, PlaneSize(d))
    requires buffer[..] == Written(rows, d.sizeZ, PlaneSize(d), 0, 0)
    modifies buffer
    ensures ok <==> forall c, s :: 0 <= c < d.sizeC && 0 <= s < d.sizeZ ==> oks[c][s]
    ensures ok ==> buffer[..] == Written(rows, d.sizeZ, PlaneSize(d), d.sizeC, 0)
  {
    var channel: nat := 0;
    while channel < d.sizeC
      invariant channel <= d.sizeC
      invariant buffer[..] == Written(rows, d.sizeZ, PlaneSize(d), channel, 0)
      invariant forall c, s :: 0 <= c < channel && 0 <= s < d.sizeZ ==> oks[c][s]
    {
      ok := ReadChannel(f, d, time, buffer, channel, rows, oks);
      if !ok {
        return;
      }
      channel := channel + 1;
    }
    ok := true;
  }

  /** The volume buffer of `loadOMETiff`: `channelsize * sizeC` zeroed bytes, then filled plane by
      plane. */
  method ReadPlanes(f: TiffFile, d: VolumeDimensions, time: i32) returns (good: bool, data: seq<byte>)
    requires PlanesFit(f, d, time)
    ensures good <==> AllPlanesRead(f, d, time)
    ensures good ==> data == VolumeBytes(f, d, time)
  {
    var planesize: nat := d.sizeX * d.sizeY * (InMemoryBpp / 8);
    var channelsize: nat := planesize * d.sizeZ;
    var total: nat := channelsize * d.sizeC;
    var buffer := new byte[total](_ => 0);
    ghost var rows := PlaneRows(f, d, time);
    ghost var oks := PlaneOks(f, d, time);
    RowsGrid(f, d, time);
    PlaneRowsOf(f, d, time);
    PlaneOksOf(f, d, time);
    assert buffer[..] == Written(rows, d.sizeZ, planesize, 0, 0) by {
      Mul3Reverse(d.sizeC, d.sizeZ, planesize);
    }
    good := ReadChannels(f, d, time, buffer, rows, oks);
    if !good {
      return false, [];
    }
    WrittenAll(rows, d.sizeZ, planesize);
    return true, buffer[..];
  }

  /** `loadOMETiff(path, outDims, time, scene)`: `file` is None when the file does not open;
      `outDims` is Some when `*outDims` is written. A scene other than 0 is read as scene 0. */
  method LoadOmeTiff(file: Option<TiffFile>, p: Parsers, dims0: VolumeDimensions, time: i32, scene: i32)
    returns (image: Option<ImageXYZC>, outDims: Option<VolumeDimensions>)
    requires file.Some? ==> |file.value.directories| < TWO32
    requires file.Some? && TiffDimensions(file.value, p, dims0).0 && time <= LastTime(TiffDimensions(file.value, p, dims0).1) ==>
      PlanesFit(file.value, TiffDimensions(file.value, p, dims0).1, time)
    ensures file.None? ==> image.None?
    ensures file.Some? ==>
      var f := file.value;
      var (ok, d) := TiffDimensions(f, p, dims0);
      && (image.Some? <==> ok && time <= LastTime(d) && AllPlanesRead(f, d, time))
      && (image.Some? ==>
            image.value == ImageXYZC(d.sizeX, d.sizeY, d.sizeZ, d.sizeC, InMemoryBpp,
                                     VolumeBytes(f, d, time),
                                     d.physicalSizeX, d.physicalSizeY, d.physicalSizeZ, d.channelNames))
    ensures outDims.Some? <==> image.Some?
    ensures outDims.Some? ==> outDims.value == TiffDimensions(file.value, p, dims0).1
  {
    image, outDims := None, None;
    if file.None? {
      return;
    }
    var f := file.value;
    var ok, dims := ReadTiffDimensions(f, p, dims0);
    if !ok {
      return;
    }
    TiffDimensionsValid(f, p, dims0);
    assert Holds(SizeZPositive, dims);
    if time > ToI32(dims.sizeT - 1) {
      return;
    }
    var good, data := ReadPlanes(f, dims, time);
    if !good {
      return;
    }
    image := Some(ImageXYZC(dims.sizeX, dims.sizeY, dims.sizeZ, dims.sizeC, InMemoryBpp, data,
                            dims.physicalSizeX, dims.physicalSizeY, dims.physicalSizeZ, dims.channelNames));
    outDims := Some(dims);
  }
}
