/** The document walk of the `compressor` view
    (pdfcomp/pdfcompressor/views.py:57-89): every page in order has its
    images recompressed in place, its content streams compressed, and is
    appended to the writer. */
module Walker {
  import opened Wrappers
  import opened Presets
  import opened Images

  /** A page of the parsed document: its image list, whose entries the walk
      overwrites one by one, and its content stream. Pages come from the PDF
      reader, which is not modelled, so the walk receives them ready-made. */
  class Page {
    var images: seq<ImageRecord>
    var content: bytes

    /** The image loop of one page (views.py:64-85): each image in turn is
        fed to the recompression step and, when that succeeds, its data is
        overwritten; a failure leaves the image and moves on. */
    method RecompressImages(level: Option<string>, lib: Library)
      modifies this
      ensures images == ProcessImages(lib, level, old(images)) && content == old(content)
    {
      var j := 0;
      while j < |images|
        invariant 0 <= j <= |images| == |old(images)|
        invariant forall m :: 0 <= m < j ==> images[m] == ProcessImage(lib, level, old(images)[m])
        invariant forall m :: j <= m < |images| ==> images[m] == old(images)[m]
        invariant content == old(content)
      {
        images := images[j := ProcessImage(lib, level, images[j])];
        j := j + 1;
      }
      ProcessImagesAt(lib, level, old(images));
    }

    /** `page.compress_content_streams()` (views.py:88). */
    method CompressContentStreams(lib: Library)
      modifies this
      ensures content == lib.compressStreams(old(content)) && images == old(images)
    {
      content := lib.compressStreams(content);
    }
  }

  /** The output document under construction (`PyPDF2.PdfWriter`). */
  class PdfWriter {
    var pages: seq<Page>

    constructor ()
      ensures pages == []
    {
      pages := [];
    }

    /** `pdf_writer.add_page(page)` (views.py:89). */
    method AddPage(page: Page)
      modifies this
      ensures pages == old(pages) + [page]
    {
      pages := pages + [page];
    }
  }

  /** The reader hands out a distinct page object for every page. */
  ghost predicate Distinct(pages: seq<Page>) {
    forall k, m :: 0 <= k < m < |pages| ==> pages[k] != pages[m]
  }

  /** Whether some page has a non-empty image list: the value `has_images`
      ends with (views.py:57, 62-63). */
  ghost predicate SomePageHasImages(pages: seq<Page>)
    reads pages
  {
    exists k :: 0 <= k < |pages| && pages[k].images != []
  }

  /** The body of the page loop (views.py:62-88): the images of a page
      that has any are recompressed, then its content streams are
      compressed. Reports whether the page had images. */
  method ProcessPage(page: Page, level: Option<string>, lib: Library) returns (pageHasImages: bool)
    modifies page
    ensures pageHasImages <==> old(page.images) != []
    ensures page.images == ProcessImages(lib, level, old(page.images))
    ensures page.content == lib.compressStreams(old(page.content))
  {
    pageHasImages := page.images != [];
    if pageHasImages {
      page.RecompressImages(level, lib);
    }
    page.CompressContentStreams(lib);
  }

  /** The loop of views.py:60-89. The writer receives every page exactly
      once and in order; each page's image list becomes its processed image
      list (same length, failed images unchanged); each page's content
      stream is compressed; `has_images` tells whether any page had images. */
  method CompressDocument(pages: seq<Page>, level: Option<string>, lib: Library)
    returns (writer: PdfWriter, hasImages: bool)
    requires Distinct(pages)
    modifies pages
    ensures fresh(writer) && writer.pages == pages
    ensures hasImages <==> old(SomePageHasImages(pages))
    ensures forall k :: 0 <= k < |pages| ==>
      pages[k].images == ProcessImages(lib, level, old(pages[k].images))
    ensures forall k :: 0 <= k < |pages| ==>
      pages[k].content == lib.compressStreams(old(pages[k].content))
  {
    writer := new PdfWriter();
    hasImages := false;
    var i := 0;
    while i < |pages|
      invariant 0 <= i <= |pages|
      invariant fresh(writer) && writer.pages == pages[..i]
      invariant !hasImages <==> forall k :: 0 <= k < i ==> old(pages[k].images) == []
      invariant forall k :: 0 <= k < i ==>
        pages[k].images == ProcessImages(lib, level, old(pages[k].images)) &&
        pages[k].content == lib.compressStreams(old(pages[k].content))
      invariant forall k :: i <= k < |pages| ==>
        pages[k].images == old(pages[k].images) && pages[k].content == old(pages[k].content)
    {
      var page := pages[i];
      var pageHasImages := ProcessPage(page, level, lib);
      hasImages := hasImages || pageHasImages;
      writer.AddPage(page);
      i := i + 1;
    }
  }
}
