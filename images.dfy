/** The per-image recompression step of the document walk
    (pdfcomp/pdfcompressor/views.py:64-85). The imaging and PDF libraries
    are not modelled; their operations are the fields of a `Library`, each
    of which may fail (raise) by returning `None`. */
module Images {
  import opened Wrappers
  import opened Presets
  import opened Sizes

  /** A decoded image: its colour mode name, its size in pixels and its
      samples. */
  datatype Raster = Raster(mode: string, width: nat, height: nat, samples: bytes)

  /** The library calls the view makes.
      - `open`: `Image.open` on the image's bytes (views.py:67-68)
      - `toRgb`: `convert('RGB')` (views.py:72)
      - `resize`: `resize(new_size, LANCZOS)` (views.py:77)
      - `saveJpeg`: `save(..., format='JPEG', quality=q, optimize=True)`
        followed by `getvalue()` (views.py:80-82)
      - `compressStreams`: the page transform `compress_content_streams`
        (views.py:88), which the view lets raise to its outer handler and
        is therefore total here. */
  datatype Library = Library(
    open: bytes -> Option<Raster>,
    toRgb: Raster -> Option<Raster>,
    resize: (Raster, nat, nat) -> Option<Raster>,
    saveJpeg: (Raster, nat) -> Option<bytes>,
    compressStreams: bytes -> bytes)

  /** An image of a page as the PDF library exposes it: its name and its
      encoded data, the field that the view overwrites. */
  datatype ImageRecord = ImageRecord(name: string, data: bytes)

  /** The colour normalisation: CMYK is converted, other modes pass. */
  function Normalize(lib: Library, r: Raster): (n: Option<Raster>)
    ensures r.mode == "CMYK" ==> n == lib.toRgb(r)
    ensures r.mode != "CMYK" ==> n == Some(r)
  {
    if r.mode == "CMYK" then lib.toRgb(r) else Some(r)
  }

  /** A library whose CMYK conversion, when it succeeds, gives an RGB
      raster of the same size. */
  ghost predicate ConvertsToRgb(lib: Library)
  {
    forall x :: lib.toRgb(x).Some? ==>
      lib.toRgb(x).value.mode == "RGB" &&
      lib.toRgb(x).value.width == x.width && lib.toRgb(x).value.height == x.height
  }

  /** What the normalisation is for (views.py:70-72): with a conversion
      that yields RGB, no raster reaches the resampler in CMYK, and the
      normalised raster keeps the decoded size. */
  lemma NormalizeRemovesCmyk(lib: Library, r: Raster)
    requires ConvertsToRgb(lib)
    ensures Normalize(lib, r).Some? ==> Normalize(lib, r).value.mode != "CMYK"
    ensures Normalize(lib, r).Some? ==>
      Normalize(lib, r).value.width == r.width && Normalize(lib, r).value.height == r.height
  {
  }

  /** A sample image: an 800x600 CMYK image recompressed at `recommended`
      is converted to RGB, resampled to 600x450 and encoded at quality 60. */
  lemma CmykSampleRecompressed(lib: Library, data: bytes, samples: bytes)
    requires ConvertsToRgb(lib)
    requires lib.open(data) == Some(Raster("CMYK", 800, 600, samples))
    ensures Recompress(lib, data, Some("recommended")).Some? ==>
      && lib.toRgb(Raster("CMYK", 800, 600, samples)).Some?
      && var rgb := lib.toRgb(Raster("CMYK", 800, 600, samples)).value;
         && rgb.mode == "RGB"
         && lib.resize(rgb, 600, 450).Some?
         && lib.saveJpeg(lib.resize(rgb, 600, 450).value, 60).Some?
         && Recompress(lib, data, Some("recommended")).value
            == lib.saveJpeg(lib.resize(rgb, 600, 450).value, 60).value
  {
  }

  /** Every library step of the recompression of `data` under preset `p`
      succeeds: the image decodes, normalises, resamples to its scaled size
      and encodes at the preset's quality (views.py:67-81). */
  ghost predicate Succeeds(lib: Library, p: Preset, data: bytes)
    requires ValidScale(p.scale)
  {
    && lib.open(data).Some?
    && Normalize(lib, lib.open(data).value).Some?
    && var pixels := Normalize(lib, lib.open(data).value).value;
       var size := TargetSize(pixels.width, pixels.height, p.scale);
       && lib.resize(pixels, size.0, size.1).Some?
       && lib.saveJpeg(lib.resize(pixels, size.0, size.1).value, p.quality).Some?
  }

  /** The JPEG bytes that a successful recompression produces. */
  ghost function Reencoded(lib: Library, p: Preset, data: bytes): bytes
    requires ValidScale(p.scale) && Succeeds(lib, p, data)
  {
    var pixels := Normalize(lib, lib.open(data).value).value;
    var size := TargetSize(pixels.width, pixels.height, p.scale);
    lib.saveJpeg(lib.resize(pixels, size.0, size.1).value, p.quality).value
  }

  /** The body of the per-image `try` (views.py:66-82): decode, normalise,
      look up the preset, resize to the scaled size, encode at the preset's
      quality. `None` stands for any exception raised on the way, including
      the `KeyError` of an unknown preset name. */
  function Recompress(lib: Library, data: bytes, level: Option<string>): (r: Option<bytes>)
    ensures r.Some? <==> Lookup(level).Some? && Succeeds(lib, Lookup(level).value, data)
    ensures r.Some? ==> r.value == Reencoded(lib, Lookup(level).value, data)
  {
    match lib.open(data)
    case None => None
    case Some(decoded) =>
      match Normalize(lib, decoded)
      case None => None
      case Some(pixels) =>
        match Lookup(level)
        case None => None
        case Some(preset) =>
          var size := TargetSize(pixels.width, pixels.height, preset.scale);
          match lib.resize(pixels, size.0, size.1)
          case None => None
          case Some(resized) => lib.saveJpeg(resized, preset.quality)
  }

  /** One iteration of the image loop: on success `img.data` is overwritten
      (views.py:82), on failure the image is left as it was (views.py:84-85). */
  function ProcessImage(lib: Library, level: Option<string>, img: ImageRecord): (r: ImageRecord)
    ensures r.name == img.name
  {
    match Recompress(lib, img.data, level)
    case Some(out) => img.(data := out)
    case None => img
  }

  /** The image list of a page after the whole image loop. */
  function ProcessImages(lib: Library, level: Option<string>, imgs: seq<ImageRecord>): (r: seq<ImageRecord>)
    ensures |r| == |imgs|
  {
    if imgs == [] then [] else [ProcessImage(lib, level, imgs[0])] + ProcessImages(lib, level, imgs[1..])
  }

  /** Every position of the processed list holds the processed image that
      was there: together with the length, nothing is added, removed or
      reordered. */
  lemma {:induction false} ProcessImagesAt(lib: Library, level: Option<string>, imgs: seq<ImageRecord>)
    ensures forall k :: 0 <= k < |imgs| ==> ProcessImages(lib, level, imgs)[k] == ProcessImage(lib, level, imgs[k])
  {
    if imgs != [] {
      ProcessImagesAt(lib, level, imgs[1..]);
    }
  }

  /** Position k of the processed list is image k unchanged when its step
      fails, and image k carrying exactly the re-encoded bytes when its step
      succeeds. */
  lemma {:induction false} ProcessImagesOutcome(lib: Library, level: Option<string>, imgs: seq<ImageRecord>)
    ensures forall k :: 0 <= k < |imgs| && Recompress(lib, imgs[k].data, level).None? ==>
      ProcessImages(lib, level, imgs)[k] == imgs[k]
    ensures forall k :: 0 <= k < |imgs| && Recompress(lib, imgs[k].data, level).Some? ==>
      ProcessImages(lib, level, imgs)[k] == imgs[k].(data := Recompress(lib, imgs[k].data, level).value)
  {
    ProcessImagesAt(lib, level, imgs);
  }

  /** With a known preset, every image whose library steps all succeed
      carries the JPEG bytes of its resampled raster, and every other image
      is left as it was. */
  lemma {:induction false} KnownPresetRecompressesEach(lib: Library, level: Option<string>, imgs: seq<ImageRecord>)
    requires Lookup(level).Some?
    ensures forall k :: 0 <= k < |imgs| ==>
      ProcessImages(lib, level, imgs)[k] ==
        if Succeeds(lib, Lookup(level).value, imgs[k].data)
        then imgs[k].(data := Reencoded(lib, Lookup(level).value, imgs[k].data))
        else imgs[k]
  {
    ProcessImagesAt(lib, level, imgs);
  }

  /** An image that fails at any position does not stop the loop: the
      images after it are processed all the same. */
  lemma {:induction false} FailureIsLocal(lib: Library, level: Option<string>, imgs: seq<ImageRecord>, k: nat)
    requires k < |imgs| && Recompress(lib, imgs[k].data, level).None?
    ensures ProcessImages(lib, level, imgs)[k] == imgs[k]
    ensures ProcessImages(lib, level, imgs)[k + 1..] == ProcessImages(lib, level, imgs[k + 1..])
  {
    ProcessImagesAt(lib, level, imgs);
    ProcessImagesAt(lib, level, imgs[k + 1..]);
  }

  /** With no preset to look up, every image fails and the list is returned
      unchanged. */
  lemma UnknownPresetKeepsImages(lib: Library, level: Option<string>)
    requires Lookup(level).None?
    ensures forall imgs :: ProcessImages(lib, level, imgs) == imgs
  {
    forall imgs: seq<ImageRecord> ensures ProcessImages(lib, level, imgs) == imgs {
      ProcessImagesAt(lib, level, imgs);
    }
  }

  /** A recompressed image was resampled to exactly the scaled size of its
      normalised raster, which is no larger than that raster. */
  lemma RecompressResizesToScale(lib: Library, data: bytes, level: Option<string>)
    requires Recompress(lib, data, level).Some?
    ensures Normalize(lib, lib.open(data).value).Some?
    ensures var pixels := Normalize(lib, lib.open(data).value).value;
            var w := ScaledDim(pixels.width, Lookup(level).value.scale);
            var h := ScaledDim(pixels.height, Lookup(level).value.scale);
            w <= pixels.width && h <= pixels.height &&
            lib.resize(pixels, w, h).Some? &&
            Recompress(lib, data, level) == lib.saveJpeg(lib.resize(pixels, w, h).value, Lookup(level).value.quality)
  {
  }
}
