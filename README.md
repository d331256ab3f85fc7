# PDFComp compression pipeline in Dafny

A model of the `compressor` view of PDFComp (`pdfcomp/pdfcompressor/views.py`),
the one procedure of the repository that holds logic. A user uploads a PDF and
picks a compression level; the view stores the upload under a sanitised name,
walks the pages of the document, recompresses every embedded image at the
level's scale and JPEG quality, compresses each page's content streams, writes
the result under a `compressed_` name and reports both sizes in KiB.

Modules, one per stage of the view:

- `Wrappers` (`wrappers.dfy`): `Option` and the `byte` type.
- `Presets` (`presets.dfy`): the fixed preset table. The three levels form a
  datatype `Level`. `Lookup` takes the submitted
  `compression_level` as an `Option<string>`, because the form field may be
  missing. It returns `None` where the source's dictionary lookup raises
  `KeyError`. Each scale is an exact fraction: 1/2, 3/4 and 9/10.
- `Naming` (`naming.dfy`): the space-to-underscore sanitising and the
  `compressed_` output name.
- `Sizes` (`sizes.dfy`): the target size `int(d * scale)` for a
  pixel count `d`, written as `d * num / den`. Also the `// 1024` KiB
  figures and the size-warning condition.
- `Images` (`images.dfy`): the per-image step. The imaging library is a
  `Library` value whose fields are the operations the view calls, each of
  which may fail (`None`): open, CMYK-to-RGB conversion, resampling and JPEG
  encoding. It also has a field for the PDF library's `compress_content_streams`.
  `Recompress` runs the steps in the source's order, with the preset lookup
  inside them as in the source. `ProcessImage` overwrites an image's data on
  success and leaves the image alone on failure.
- `Walker` (`walker.dfy`): the imperative walk. `Page` is a class holding its
  image list and content stream. `PdfWriter` is a class holding the pages
  added so far. `CompressDocument` is the nested page/image loop, proved
  against `ProcessImages`.
- `View` (`view.dfy`): the successful path of the view. It derives the names,
  runs the walk and builds the report handed to the template.

The two file sizes (`os.path.getsize` of the saved upload and of the written
output) are parameters. The library operations are function-valued parameters.

Two behaviours of the code that the model keeps as they are:

- views.py:76 does not clamp a scaled dimension, so `ScaledDim` can be 0
  (`Sizes.ScaledDimZero`). Whether the resampler then fails is up to the
  `resize` parameter.
- An unknown or missing preset name raises `KeyError` at views.py:75, inside
  the per-image `try`. So every image fails and the document is still
  written (`Images.UnknownPresetKeepsImages`, `View.Compressor`).

## Model

| member | source | states |
|---|---|---|
| Presets.ParseLevel | pdfcomp/pdfcompressor/views.py:47-51 | a name is read as a level exactly when it is one of the three table keys, and the level read back carries that name |
| Presets.Settings | pdfcomp/pdfcompressor/views.py:48-50 | every level's scale lies in (0, 1] |
| Presets.Lookup | pdfcomp/pdfcompressor/views.py:47-51 | a preset is found exactly when a name was submitted and it is a key of the table, so a missing field or any other name finds none (the lookup raises); every found preset has a scale in (0, 1] |
| Presets.ParseLevelName | pdfcomp/pdfcompressor/views.py:47-51 | level names round-trip: each level's name parses back to that level, and only that name does |
| Presets.LookupTable | pdfcomp/pdfcompressor/views.py:47-51 | `extreme`, `recommended` and `less` give exactly (20, 1/2), (60, 3/4) and (90, 9/10) |
| Naming.SafeFilename | pdfcomp/pdfcompressor/views.py:31 | same length as the upload name; at every position a space becomes `_` and any other character is kept |
| Naming.SafeFilenameHasNoSpace | pdfcomp/pdfcompressor/views.py:31 | the stored name contains no space |
| Naming.SafeFilenameIdempotent | pdfcomp/pdfcompressor/views.py:31 | sanitising twice is the same as sanitising once |
| Naming.SafeFilenameKeepsSpaceFree | pdfcomp/pdfcompressor/views.py:31 | a name with no space is stored under itself |
| Naming.OutputFilename | pdfcomp/pdfcompressor/views.py:44 | the output name is the literal `compressed_` followed by the stored name, 11 characters longer |
| Naming.OutputFilenameOfUpload | pdfcomp/pdfcompressor/views.py:31-44 | for an upload name, the output name is 11 characters longer, ends with the sanitised name and has no space |
| Sizes.ScaledDim | pdfcomp/pdfcompressor/views.py:76 | the scaled dimension is the floor of `d * num / den`: r*den <= d*num < (r+1)*den |
| Sizes.ScaledDimAtMost | pdfcomp/pdfcompressor/views.py:75-76 | a scale of at most 1 never enlarges a dimension |
| Sizes.ScaledDimZero | pdfcomp/pdfcompressor/views.py:76 | a dimension scales to 0 exactly when d*num < den (no clamping) |
| Sizes.TargetSize | pdfcomp/pdfcompressor/views.py:76 | the size passed to the resampler is (floor(w*scale), floor(h*scale)) and never exceeds (w, h) |
| Sizes.PresetSizeExamples | pdfcomp/pdfcompressor/views.py:48-50 | samples of the `recommended` and `extreme` rows: 800x600 at `recommended` becomes 600x450, and 1000x1000 at `extreme` becomes 500x500 |
| Sizes.Kib | pdfcomp/pdfcompressor/views.py:103-104 | the reported figure is the whole number of KiB: k*1024 <= size < (k+1)*1024 |
| Sizes.NoWarningReportsNoGrowth | pdfcomp/pdfcompressor/views.py:97-104 | for a document with images and no warning, the compressed KiB figure is no larger than the original one |
| Images.NormalizeRemovesCmyk | pdfcomp/pdfcompressor/views.py:70-72 | when the RGB conversion yields an RGB raster of the same size, a normalised raster is never CMYK and keeps the decoded width and height |
| Images.CmykSampleRecompressed | pdfcomp/pdfcompressor/views.py:66-82 | a sample: an 800x600 CMYK image recompressed at `recommended` is converted to RGB, resampled to 600x450 and encoded at quality 60, and those JPEG bytes are the result |
| Images.Recompress | pdfcomp/pdfcompressor/views.py:66-82 | the step succeeds exactly when the preset is known and every library step succeeds (decode, normalise, resample to the scaled size, encode at the preset's quality), and then yields exactly those JPEG bytes |
| Images.RecompressResizesToScale | pdfcomp/pdfcompressor/views.py:75-81 | a successful step resampled the normalised raster to its scaled size, which is at most its own size, and encoded the result at the preset's quality |
| Images.ProcessImage | pdfcomp/pdfcompressor/views.py:82-85 | the image keeps its identity (name) whatever the outcome |
| Images.ProcessImages | pdfcomp/pdfcompressor/views.py:64-85 | the processed list has as many images as the original |
| Images.ProcessImagesAt | pdfcomp/pdfcompressor/views.py:64-85 | position k of the processed list is the processed image k: nothing added, removed or reordered |
| Images.ProcessImagesOutcome | pdfcomp/pdfcompressor/views.py:64-85 | in the processed list, image k is unchanged when its step fails and carries exactly the re-encoded bytes when it succeeds |
| Images.KnownPresetRecompressesEach | pdfcomp/pdfcompressor/views.py:64-85 | with a known preset, every image whose library steps all succeed carries the JPEG bytes of its resampled raster, and every other image is left as it was |
| Images.FailureIsLocal | pdfcomp/pdfcompressor/views.py:84-85 | a failing image stays as it was and the images after it are processed all the same |
| Images.UnknownPresetKeepsImages | pdfcomp/pdfcompressor/views.py:65-85 | with no preset every image fails, so every image list comes back unchanged |
| Walker.Page.RecompressImages | pdfcomp/pdfcompressor/views.py:64-85 | the page's image list becomes ProcessImages of the old list; the content stream is untouched |
| Walker.Page.CompressContentStreams | pdfcomp/pdfcompressor/views.py:88 | the content stream is transformed by the library; the images are untouched |
| Walker.PdfWriter.constructor | pdfcomp/pdfcompressor/views.py:55 | a new writer holds no pages |
| Walker.PdfWriter.AddPage | pdfcomp/pdfcompressor/views.py:89 | the page is appended after the pages already added |
| Walker.ProcessPage | pdfcomp/pdfcompressor/views.py:62-88 | reports whether the page had images; its images are processed and its streams compressed |
| Walker.CompressDocument | pdfcomp/pdfcompressor/views.py:57-89 | the writer ends with exactly the input pages in order; each page's images become ProcessImages of its old images and its stream is compressed; `has_images` is true exactly when some page had a non-empty image list |
| View.BuildReport | pdfcomp/pdfcompressor/views.py:100-106 | the report names the stored file and its `compressed_` output, gives both sizes in whole KiB, and carries the message "No images found to compress" exactly when there were no images, and no message otherwise |
| View.Compressor | pdfcomp/pdfcompressor/views.py:26-106 | the whole successful path: stored and output names derived from the upload name; every page written in order with its images processed and its content stream compressed; both KiB figures; the "No images found to compress" message set exactly when no page had images (views.py:105); the warning exactly when the output is not smaller and some page had images (views.py:97); with an unknown or missing preset every image list is unchanged, yet the document and the report are still produced |

## Left out

- Authentication, request dispatch, `render`/`redirect`, `login_page`, `logout` and the missing-upload reply (views.py:12-24, 115, 124-125): these are web-framework glue.
- Filesystem work: creating the media directory, the chunked upload write, the existence check, both `getsize` calls, the output write and `download_file` (views.py:28, 35-41, 58, 92-96, 117-122). The model takes the two sizes as inputs.
- PDF parsing and serialisation (`PdfReader`, `PdfWriter.write`): the model starts from a sequence of pages and ends with the writer's page list.
- The pixel work of PIL and the byte work of `compress_content_streams`: these are function-valued parameters of `Library`. Nothing is proved about JPEG output.
- Floating-point arithmetic: `int(w * 0.9)` is modelled with exact fractions. The IEEE rounding of the products is not modelled.
- `print` logging and `traceback` (views.py:85, 98, 109-110). The size warning is modelled as the returned flag `warned`.
- The top-level catch-all (views.py:108-113). A raise from parsing, from building the `page.images` list (views.py:62 and 64, outside the per-image `try`), from `compress_content_streams` or from writing is not modelled. Those library calls are total here. So the claim that the document is still produced under an unknown preset (`Images.UnknownPresetKeepsImages`, `View.Compressor`) holds only when none of them raises.
- `page.images` is modelled as a sequence field of the page that the image loop reassigns one entry at a time. The model assumes write-through: the assignment `img.data = ...` at views.py:82 changes the page that is later appended at views.py:89. The source reads `page.images` from the library twice (views.py:62 and 64), and nothing in its text shows that those records are the page's own objects. If the library builds fresh records on each access, the write would not reach the output; the model does not capture that case.
- Walker.CompressDocument: requires that the reader's page objects are pairwise distinct. The model assumes this of the reader and does not derive it.
- View.Compressor: has the same requirement that the page objects are pairwise distinct, for the same reason.
- `pdfcomp/pdfcompressor/urls.py`: it is a routing table with no logic.
