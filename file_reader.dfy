/** The loader front end: a cache of loaded images keyed by path or name, the choice of reader by
    file extension, and the wrapping of a caller's CZYX array as an image. */
module FileReader {
  import opened Common
  import opened Text
  import opened VolumeDims
  import opened Planes
  import TiffReader
  import CziReader

  /** The reader an extension selects. */
  datatype Format = Tiff | Czi | Unsupported

  /** `.tif` and `.tiff` select the TIFF reader and `.czi` the CZI reader, in any letter case;
      any other extension selects none. */
  function FormatOf(ext: string): Format
  {
    var e := Lower(ext);
    if e == ".tif" || e == ".tiff" then Tiff else if e == ".czi" then Czi else Unsupported
  }

  /** What `loadOMETiff` returns and writes to `*dims`, for the file as libtiff opens it. */
  function TiffOpened(file: Option<TiffReader.TiffFile>, p: TiffReader.Parsers, dims0: VolumeDimensions,
                      time: i32): (Option<ImageXYZC>, Option<VolumeDimensions>)
    requires file.Some? ==> |file.value.directories| < TWO32
  {
    if file.None? then (None, None)
    else
      var f := file.value;
      var (ok, d) := TiffReader.TiffDimensions(f, p, dims0);
      if ok && time <= TiffReader.LastTime(d) && TiffReader.AllPlanesRead(f, d, time) then
        (Some(ImageXYZC(d.sizeX, d.sizeY, d.sizeZ, d.sizeC, InMemoryBpp, TiffReader.VolumeBytes(f, d, time),
                        d.physicalSizeX, d.physicalSizeY, d.physicalSizeZ, d.channelNames)),
         Some(d))
      else (None, None)
  }

  /** What `loadCzi` returns and writes to `*dims`, for the file as libCZI opens it. */
  function CziOpened(file: Option<CziReader.CziFile>, dims0: VolumeDimensions, time: i32, scene: i32)
    : (Option<ImageXYZC>, Option<VolumeDimensions>)
  {
    if file.None? then (None, None)
    else
      var f := file.value;
      var r := CziReader.CziDimensions(f, dims0);
      if r.Some? && CziReader.Dim.Z in f.stats.dimBounds && CziReader.Dim.C in f.stats.dimBounds then
        var d := r.value;
        (Some(ImageXYZC(d.sizeX, d.sizeY, d.sizeZ, d.sizeC, InMemoryBpp, CziReader.CziVolume(f, d, time, scene),
                        d.physicalSizeX, d.physicalSizeY, d.physicalSizeZ, d.channelNames)),
         Some(d))
      else (None, None)
  }

  /** What the reader the extension selects returns and writes to `*dims`: nothing for an
      unsupported extension. */
  function Opened(ext: string, tiff: Option<TiffReader.TiffFile>, czi: Option<CziReader.CziFile>,
                  p: TiffReader.Parsers, dims0: VolumeDimensions, time: i32, scene: i32)
    : (Option<ImageXYZC>, Option<VolumeDimensions>)
    requires FormatOf(ext) == Tiff && tiff.Some? ==> |tiff.value.directories| < TWO32
  {
    match FormatOf(ext)
    case Tiff => TiffOpened(tiff, p, dims0, time)
    case Czi => CziOpened(czi, dims0, time, scene)
    case Unsupported => (None, None)
  }

  /** What the readers assume of the files they read: the TIFF directory count fits in 32 bits and,
      once the dimensions are read and the time point passes the gate, no plane of that time point
      writes more than a slot; once the CZI dimensions are read and the Z and C intervals exist,
      every sub-block the loops visit has the extents read. */
  predicate Readable(ext: string, tiff: Option<TiffReader.TiffFile>, czi: Option<CziReader.CziFile>,
                     p: TiffReader.Parsers, dims0: VolumeDimensions, time: i32, scene: i32)
  {
    && (FormatOf(ext) == Tiff && tiff.Some? ==>
          |tiff.value.directories| < TWO32
          && (var (ok, d) := TiffReader.TiffDimensions(tiff.value, p, dims0);
              ok && time <= TiffReader.LastTime(d) ==> TiffReader.PlanesFit(tiff.value, d, time)))
    && (FormatOf(ext) == Czi && czi.Some? && CziReader.CziDimensions(czi.value, dims0).Some?
        && CziReader.Dim.Z in czi.value.stats.dimBounds && CziReader.Dim.C in czi.value.stats.dimBounds ==>
          CziReader.BlocksFit(czi.value, CziReader.CziDimensions(czi.value, dims0).value, time, scene))
  }

  /** The cache after a load of `key` that produced `image`: the entry is set only when the
      caller asks for it and there is an image. */
  function Cached(cache: map<string, ImageXYZC>, key: string, image: Option<ImageXYZC>, addToCache: bool)
    : (r: map<string, ImageXYZC>)
  {
    if addToCache && image.Some? then cache[key := image.value] else cache
  }

  /** Caching adds the one entry and leaves every other entry as it was; without an image or
      without the request, the cache is unchanged. */
  lemma CachedEntries(cache: map<string, ImageXYZC>, key: string, image: Option<ImageXYZC>, addToCache: bool)
    ensures var r := Cached(cache, key, image, addToCache);
      && (addToCache && image.Some? ==> key in r && r[key] == image.value)
      && (!(addToCache && image.Some?) ==> r == cache)
      && (forall k :: k != key ==> (k in r <==> k in cache))
      && (forall k :: k != key && k in cache ==> r[k] == cache[k])
      && (forall k :: k in cache ==> k in r)
  {
  }

  /** Lower-casing twice is lower-casing once. */
  lemma LowerIdempotent(s: string)
    ensures Lower(Lower(s)) == Lower(s)
  {
    forall i | 0 <= i < |s| ensures Lower(Lower(s))[i] == Lower(s)[i] {
      var c := s[i];
      assert Lower(s)[i] == LowerChar(c);
    }
  }

  /** The choice of reader ignores the case of the extension. */
  lemma FormatIgnoresCase(ext: string)
    ensures FormatOf(Lower(ext)) == FormatOf(ext)
  {
    LowerIdempotent(ext);
  }

  /** Upper-case extensions select their readers too. */
  lemma FormatExamples()
    ensures FormatOf(".TIF") == Tiff && FormatOf(".Czi") == Czi && FormatOf(".png") == Unsupported
  {
    assert Lower(".TIF") == ".tif";
    assert Lower(".Czi") == ".czi";
  }

  /** The extension lower-cased in place, character by character. */
  method LowerExtension(ext: string) returns (extstr: string)
    ensures extstr == Lower(ext)
  {
    extstr := ext;
    var i := 0;
    while i < |extstr|
      invariant i <= |extstr| == |ext|
      invariant forall k :: 0 <= k < i ==> extstr[k] == LowerChar(ext[k])
      invariant forall k :: i <= k < |ext| ==> extstr[k] == ext[k]
    {
      extstr := extstr[i := LowerChar(extstr[i])];
      i := i + 1;
    }
  }

  /** The extension lower-cased and the reader it selects run on the file. */
  method Dispatch(ext: string, tiff: Option<TiffReader.TiffFile>, czi: Option<CziReader.CziFile>,
                  p: TiffReader.Parsers, dims0: VolumeDimensions, time: i32, scene: i32)
    returns (image: Option<ImageXYZC>, dims: Option<VolumeDimensions>)
    requires Readable(ext, tiff, czi, p, dims0, time, scene)
    ensures (image, dims) == Opened(ext, tiff, czi, p, dims0, time, scene)
  {
    image, dims := None, None;
    var extstr := LowerExtension(ext);
    if extstr == ".tif" || extstr == ".tiff" {
      image, dims := TiffReader.LoadOmeTiff(tiff, p, dims0, time, scene);
    } else if extstr == ".czi" {
      image, dims := CziReader.LoadCzi(czi, dims0, time, scene);
    }
  }

  /** The shape of `loadFromArray_4D` read as C, Z, Y, X: the image of a caller's array, with
      16 bits per sample and the physical sizes in X, Y, Z order. */
  function ArrayImage(data: seq<byte>, shape: seq<u32>, channelNames: seq<string>, physicalSizes: seq<real>)
    : (r: ImageXYZC)
    requires |shape| == 4 && |physicalSizes| == 3
  {
    ImageXYZC(shape[3], shape[2], shape[1], shape[0], 16, data,
              physicalSizes[0], physicalSizes[1], physicalSizes[2], channelNames)
  }

  /** The image's extents give back the shape in C, Z, Y, X order, and the image holds the
      caller's bytes, names and sizes as given. */
  lemma ArrayImageShape(data: seq<byte>, shape: seq<u32>, channelNames: seq<string>, physicalSizes: seq<real>)
    requires |shape| == 4 && |physicalSizes| == 3
    ensures var im := ArrayImage(data, shape, channelNames, physicalSizes);
      && [im.sizeC, im.sizeZ, im.sizeY, im.sizeX] == shape
      && im.bitsPerPixel == 16 && im.data == data && im.channelNames == channelNames
      && [im.physicalSizeX, im.physicalSizeY, im.physicalSizeZ] == physicalSizes
  {
  }

  /** The process-wide `sPreloadedImageCache` and the loaders that consult it. The files a path
      names are given as the values libtiff and libCZI would read from it (None when the file
      does not open), and `ext` is the extension boost takes from the path. */
  class FileReader {
    var cache: map<string, ImageXYZC>

    constructor()
      ensures cache == map[]
    {
      cache := map[];
    }

    /** `loadFromFile(filepath, dims, time, scene, addToCache)`: a cached image is returned at
        once, without reading and without writing `*dims` (`dims` is None); otherwise the reader
        the extension selects runs, and its image is cached when asked for. */
    method LoadFromFile(filepath: string, ext: string, tiff: Option<TiffReader.TiffFile>,
                        czi: Option<CziReader.CziFile>, p: TiffReader.Parsers, dims0: VolumeDimensions,
                        time: i32, scene: i32, addToCache: bool)
      returns (image: Option<ImageXYZC>, dims: Option<VolumeDimensions>)
      requires filepath !in cache ==> Readable(ext, tiff, czi, p, dims0, time, scene)
      modifies this
      ensures filepath in old(cache) ==>
        image == Some(old(cache)[filepath]) && dims.None? && cache == old(cache)
      ensures filepath !in old(cache) ==>
        (image, dims) == Opened(ext, tiff, czi, p, dims0, time, scene)
        && cache == Cached(old(cache), filepath, image, addToCache)
    {
      if filepath in cache {
        return Some(cache[filepath]), None;
      }
      image, dims := Dispatch(ext, tiff, czi, p, dims0, time, scene);
      if addToCache && image.Some? {
        cache := cache[filepath := image.value];
      }
    }

    /** `loadFromFile_4D(filepath, dims, addToCache)`: the load at time 0 of scene 0. */
    method LoadFromFile4D(filepath: string, ext: string, tiff: Option<TiffReader.TiffFile>,
                          czi: Option<CziReader.CziFile>, p: TiffReader.Parsers, dims0: VolumeDimensions,
                          addToCache: bool)
      returns (image: Option<ImageXYZC>, dims: Option<VolumeDimensions>)
      requires filepath !in cache ==> Readable(ext, tiff, czi, p, dims0, 0, 0)
      modifies this
      ensures filepath in old(cache) ==>
        image == Some(old(cache)[filepath]) && dims.None? && cache == old(cache)
      ensures filepath !in old(cache) ==>
        (image, dims) == Opened(ext, tiff, czi, p, dims0, 0, 0)
        && cache == Cached(old(cache), filepath, image, addToCache)
    {
      image, dims := LoadFromFile(filepath, ext, tiff, czi, p, dims0, 0, 0, addToCache);
    }

    /** `loadFromArray_4D(dataArray, shape, name, dims, channelNames, physicalSizes, addToCache)`:
        a cached image under `name` is returned at once; otherwise the caller's bytes become an
        image of the CZYX shape, cached under `name` whenever asked for. The dimension letters
        `dims` are not consulted. */
    method LoadFromArray4D(data: seq<byte>, shape: seq<u32>, name: string, dims: seq<char>,
                           channelNames: seq<string>, physicalSizes: seq<real>, addToCache: bool)
      returns (image: ImageXYZC)
      requires name !in cache ==> |shape| == 4 && |physicalSizes| == 3
      modifies this
      ensures name in old(cache) ==> image == old(cache)[name] && cache == old(cache)
      ensures name !in old(cache) ==>
        image == ArrayImage(data, shape, channelNames, physicalSizes)
        && cache == Cached(old(cache), name, Some(image), addToCache)
    {
      if name in cache {
        return cache[name];
      }
      var XDIM, YDIM, ZDIM, CDIM := 3, 2, 1, 0;
      var bpp: u32 := 16;
      var sizeX, sizeY, sizeZ, sizeC := shape[XDIM], shape[YDIM], shape[ZDIM], shape[CDIM];
      var physicalSizeX, physicalSizeY, physicalSizeZ := physicalSizes[0], physicalSizes[1], physicalSizes[2];
      image := ImageXYZC(sizeX, sizeY, sizeZ, sizeC, bpp, data, physicalSizeX, physicalSizeY, physicalSizeZ, []);
      image := image.(channelNames := channelNames);
      if addToCache {
        cache := cache[name := image];
      }
    }
  }

  /** A second load of a path whose first load was cached returns the same image without
      reading the file again, whatever the files and the extension say then. */
  method ReloadIsCached(r: FileReader, filepath: string, ext: string, tiff: Option<TiffReader.TiffFile>,
                        czi: Option<CziReader.CziFile>, p: TiffReader.Parsers, dims0: VolumeDimensions,
                        time: i32, scene: i32, ext2: string, tiff2: Option<TiffReader.TiffFile>,
                        czi2: Option<CziReader.CziFile>)
    returns (first: Option<ImageXYZC>, second: Option<ImageXYZC>)
    requires filepath !in r.cache ==> Readable(ext, tiff, czi, p, dims0, time, scene)
    requires Readable(ext2, tiff2, czi2, p, dims0, time, scene)
    modifies r
    ensures first.Some? ==> second == first
  {
    var d1, d2;
    first, d1 := r.LoadFromFile(filepath, ext, tiff, czi, p, dims0, time, scene, true);
    second, d2 := r.LoadFromFile(filepath, ext2, tiff2, czi2, p, dims0, time, scene, true);
  }
}
