/** The successful path of the `compressor` view
    (pdfcomp/pdfcompressor/views.py:26-106): derive the stored names, walk
    the document, check the sizes and build what the page shows. The two
    file sizes are what the filesystem reports for the saved upload and for
    the written output; they are inputs here. */
module View {
  import opened Wrappers
  import opened Presets
  import opened Naming
  import opened Sizes
  import opened Images
  import opened Walker

  const NO_IMAGES_MESSAGE: string := "No images found to compress"

  /** The context handed to the template (views.py:100-106). */
  datatype Report = Report(
    compressedFile: string,
    originalFile: string,
    originalKib: nat,
    compressedKib: nat,
    message: Option<string>)

  /** The report for an upload stored under `safeName`: the output name is
      the prefixed stored name, both sizes are whole KiB, and the message
      "No images found to compress" is set exactly when no page had images. */
  function BuildReport(safeName: string, originalSize: nat, compressedSize: nat, hasImages: bool): (r: Report)
    ensures r.originalFile == safeName
    ensures |r.compressedFile| == |safeName| + 11
    ensures r.compressedFile[..11] == "compressed_" && r.compressedFile[11..] == safeName
    ensures r.originalKib * 1024 <= originalSize < (r.originalKib + 1) * 1024
    ensures r.compressedKib * 1024 <= compressedSize < (r.compressedKib + 1) * 1024
    ensures r.message.Some? <==> !hasImages
    ensures r.message.Some? ==> r.message.value == NO_IMAGES_MESSAGE
  {
    Report(OutputFilename(safeName), safeName, Kib(originalSize), Kib(compressedSize),
           if hasImages then None else Some(NO_IMAGES_MESSAGE))
  }

  /** The view from the upload name to the rendered report. `warned`
      stands for the printed size warning (views.py:97-98). With an unknown
      or missing preset name every image keeps its data, yet every page is
      written and the report is produced. */
  method Compressor(uploadName: string, level: Option<string>, pages: seq<Page>, lib: Library,
                    originalSize: nat, compressedSize: nat)
    returns (report: Report, output: seq<Page>, warned: bool)
    requires Distinct(pages)
    modifies pages
    ensures output == pages
    ensures forall k :: 0 <= k < |pages| ==>
      pages[k].images == ProcessImages(lib, level, old(pages[k].images))
    ensures forall k :: 0 <= k < |pages| ==>
      pages[k].content == lib.compressStreams(old(pages[k].content))
    ensures Lookup(level).None? ==> forall k :: 0 <= k < |pages| ==> pages[k].images == old(pages[k].images)
    ensures report.originalFile == SafeFilename(uploadName)
    ensures report.compressedFile == OutputFilename(SafeFilename(uploadName))
    ensures report.originalKib == Kib(originalSize) && report.compressedKib == Kib(compressedSize)
    ensures report.message.Some? <==> !old(SomePageHasImages(pages))
    ensures report.message.Some? ==> report.message.value == NO_IMAGES_MESSAGE
    ensures warned <==> compressedSize >= originalSize && old(SomePageHasImages(pages))
  {
    var safeName := SafeFilename(uploadName);
    var writer, hasImages := CompressDocument(pages, level, lib);
    output := writer.pages;
    if Lookup(level).None? {
      UnknownPresetKeepsImages(lib, level);
    }
    warned := SizeWarning(originalSize, compressedSize, hasImages);
    report := BuildReport(safeName, originalSize, compressedSize, hasImages);
  }
}
