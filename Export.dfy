/**
 * The export side of src/components/ExportButton.tsx: the structure of the
 * generated page, the zip entries that `downloadAsZip` collects, the choice
 * `exportHTML` makes between a zip and a bare page, and the counts it shows.
 */
module Export {
  import opened SliderTypes
  import opened JsStrings
  import opened Carousel
  import opened FileManager

  // ---------------------------------------------------------------------------
  // The generated page (`generateCurvedSliderHTML`), as structure
  // ---------------------------------------------------------------------------

  /** One `.content-slide` block of the page. */
  datatype SlideBlock = SlideBlock(
    index: nat,                // data-slide
    initialClass: SlideClass,  // the class written into the page
    heading: string,           // the <h2>
    text: string,              // the <p>, inserted as it is
    imageSrc: string,
    imageAlt: string)

  /** One `.indicator-dot` of the page. */
  datatype IndicatorDot = IndicatorDot(index: nat, active: bool, title: string)

  /** The parts of the page that depend on the records. */
  datatype Page = Page(
    counterText: string,       // #current-slide
    totalText: string,         // #total-slides
    overlayTitle: string,      // #slide-title
    slides: seq<SlideBlock>,
    indicators: seq<IndicatorDot>,
    slideData: seq<string>)    // the titles handed to the script

  /** The folder that holds the local images, next to `index.html`. */
  const ImageFolder: string := "slider-images/"

  /** `${value}` for an optional string: `undefined` prints as the word. */
  function TemplateText(value: Option<string>): string {
    match value
    case Some(s) => s
    case None => "undefined"
  }

  /** The `src` of a record's image: the file in the image folder for a local image, the URL otherwise. */
  function ImageSource(s: SliderItem): string {
    if s.isLocalFile then "./" + ImageFolder + TemplateText(s.imageFileName) else s.image
  }

  /** The class a slide is written with: slide 0 active, slide 1 next, the rest none. */
  function InitialClass(index: nat): SlideClass {
    if index == 0 then Active else if index == 1 then Next else NoClass
  }

  function Block(s: SliderItem, index: nat): SlideBlock {
    var shown := DisplayTitle(s.title, index);
    SlideBlock(index, InitialClass(index), shown, s.text, ImageSource(s), shown)
  }

  /** `generateCurvedSliderHTML(sliders)`, without the fixed markup, style and script text. */
  function GeneratePage(sliders: seq<SliderItem>): Page {
    Page(
      "1",
      Decimal(|sliders|),
      if sliders != [] then DisplayTitle(sliders[0].title, 0) else "Slide 1",
      seq(|sliders|, i requires 0 <= i < |sliders| => Block(sliders[i], i)),
      seq(|sliders|, i requires 0 <= i < |sliders| => IndicatorDot(i, i == 0, DisplayTitle(sliders[i].title, i))),
      seq(|sliders|, i requires 0 <= i < |sliders| => sliders[i].title))
  }

  /**
   * The page has one slide block and one dot per record, in list order, and
   * shows the length as the total; only the first block and the first dot start
   * active, and only the second block starts as next.
   */
  lemma PageStructure(sliders: seq<SliderItem>)
    ensures var p := GeneratePage(sliders);
      && |p.slides| == |sliders| && |p.indicators| == |sliders| && |p.slideData| == |sliders|
      && p.totalText == Decimal(|sliders|)
      && (forall i :: 0 <= i < |sliders| ==>
            p.slides[i].index == i && p.indicators[i].index == i
            && p.slides[i].text == sliders[i].text
            && p.slides[i].heading == DisplayTitle(sliders[i].title, i)
            && p.indicators[i].title == p.slides[i].heading)
      && (forall i :: 0 <= i < |sliders| ==>
            (p.slides[i].initialClass == Active <==> i == 0)
            && (p.slides[i].initialClass == Next <==> i == 1)
            && (p.indicators[i].active <==> i == 0))
  {
  }

  /**
   * A local record's image points into the image folder under its stored file
   * name; a record given by URL shows that URL as it is.
   */
  lemma PageImageSources(sliders: seq<SliderItem>, i: nat)
    requires i < |sliders|
    ensures var src := GeneratePage(sliders).slides[i].imageSrc;
      && (sliders[i].isLocalFile && sliders[i].imageFileName.Some? ==>
            src == "./slider-images/" + sliders[i].imageFileName.value)
      && (!sliders[i].isLocalFile ==> src == sliders[i].image)
  {
  }

  /**
   * The page as written already shows what the script's first `updateSlides`
   * draws for slide 0: the same active slide, the same active dot, the counter
   * and the title overlay.
   */
  lemma PageAgreesWithFirstRender(sliders: seq<SliderItem>)
    requires sliders != []
    ensures var p := GeneratePage(sliders);
      && p.counterText == Decimal(0 + 1)
      && p.overlayTitle == DisplayTitle(p.slideData[0], 0)
      && (forall i :: 0 <= i < |sliders| ==>
            (p.slides[i].initialClass == Active <==> ClassFor(i, 0, |sliders|) == Active)
            && p.indicators[i].active == (i == 0))
  {
    forall i | 0 <= i < |sliders| {
      ClassForSpec(i, 0, |sliders|);
    }
  }

  // ---------------------------------------------------------------------------
  // The archive (`downloadAsZip`)
  // ---------------------------------------------------------------------------

  /** What an entry of the archive holds. */
  datatype Payload = HtmlPage(page: Page) | Base64(data: string)

  /** An entry of the archive: a file with its path and payload, or a folder. */
  datatype ZipEntry = File(path: string, payload: Payload) | Folder(path: string)

  /** `slider.image.split(',')[1]`, the base64 text of a data URL. */
  function Base64Data(image: string): Option<string> {
    SecondField(image)
  }

  /** The record's image goes into the archive: local, image and file name set, base64 text not empty. */
  predicate Zipped(s: SliderItem) {
    s.isLocalFile && s.image != [] && Truthy(s.imageFileName) && Truthy(Base64Data(s.image))
  }

  /** The archive entry of a zipped record. */
  function ImageEntry(s: SliderItem): ZipEntry
    requires Zipped(s)
  {
    File(ImageFolder + s.imageFileName.value, Base64(Base64Data(s.image).value))
  }

  /** The image entries of `sliders`, in list order. */
  function ImageEntries(sliders: seq<SliderItem>): seq<ZipEntry> {
    if sliders == [] then []
    else
      var last := sliders[|sliders| - 1];
      ImageEntries(sliders[..|sliders| - 1]) + (if Zipped(last) then [ImageEntry(last)] else [])
  }

  /** The number of records whose image goes into the archive. */
  function ZippedCount(sliders: seq<SliderItem>): nat {
    if sliders == [] then 0
    else ZippedCount(sliders[..|sliders| - 1]) + (if Zipped(sliders[|sliders| - 1]) then 1 else 0)
  }

  /** The whole archive: `index.html`, the image folder, and the images. */
  function ZipContents(sliders: seq<SliderItem>): seq<ZipEntry> {
    [File("index.html", HtmlPage(GeneratePage(sliders))), Folder(ImageFolder)] + ImageEntries(sliders)
  }

  lemma {:induction false} ImageEntriesAppend(a: seq<SliderItem>, b: seq<SliderItem>)
    ensures ImageEntries(a + b) == ImageEntries(a) + ImageEntries(b)
  {
    if b == [] {
      assert a + b == a;
    } else {
      ImageEntriesAppend(a, b[..|b| - 1]);
      assert (a + b)[..|a + b| - 1] == a + b[..|b| - 1];
    }
  }

  /** The archive gets one image entry per zipped record, so the image count is the number of zipped records. */
  lemma {:induction false} ImageEntriesCount(sliders: seq<SliderItem>)
    ensures |ImageEntries(sliders)| == ZippedCount(sliders)
  {
    if sliders != [] {
      ImageEntriesCount(sliders[..|sliders| - 1]);
    }
  }

  /** `e` is the archive entry of record `s`. */
  predicate IsEntryOf(e: ZipEntry, s: SliderItem) {
    Zipped(s) && e == ImageEntry(s)
  }

  /**
   * Each image entry lies in the image folder under a zipped record's file name
   * and holds its base64 text.
   */
  lemma {:induction false} ImageEntriesSound(sliders: seq<SliderItem>, e: ZipEntry)
    requires e in ImageEntries(sliders)
    ensures exists i :: 0 <= i < |sliders| && IsEntryOf(e, sliders[i])
  {
    var k := |sliders| - 1;
    var init := sliders[..k];
    if e in ImageEntries(init) {
      ImageEntriesSound(init, e);
      var i :| 0 <= i < k && IsEntryOf(e, init[i]);
      assert sliders[i] == init[i];
    } else {
      assert IsEntryOf(e, sliders[k]);
    }
  }

  /** Every zipped record has its entry in the archive. */
  lemma {:induction false} ImageEntriesComplete(sliders: seq<SliderItem>, i: nat)
    requires i < |sliders| && Zipped(sliders[i])
    ensures ImageEntry(sliders[i]) in ImageEntries(sliders)
  {
    var k := |sliders| - 1;
    if i < k {
      var init := sliders[..k];
      assert init[i] == sliders[i];
      ImageEntriesComplete(init, i);
    }
  }

  /** An image source names the file entry `e`, relative to the page. */
  predicate LinksTo(src: string, e: ZipEntry) {
    e.File? && src == "./" + e.path
  }

  /**
   * Every local image the page refers to is in the archive: a zipped record's
   * image source is `./` followed by the path of one of the archive's files.
   */
  lemma PageFindsZippedImages(sliders: seq<SliderItem>, i: nat)
    requires i < |sliders| && Zipped(sliders[i])
    ensures exists e :: e in ZipContents(sliders) && LinksTo(GeneratePage(sliders).slides[i].imageSrc, e)
  {
    ImageEntriesComplete(sliders, i);
    var e := ImageEntry(sliders[i]);
    assert e in ZipContents(sliders);
    var name := sliders[i].imageFileName.value;
    var src := GeneratePage(sliders).slides[i].imageSrc;
    assert src == "./" + ImageFolder + name;
    assert "./" + ImageFolder + name == "./" + (ImageFolder + name);
    assert LinksTo(src, e);
  }

  /**
   * A local record with an empty file name (a `data:` URL typed into the URL
   * field) still makes `exportHTML` build an archive, but its page image points
   * at the image folder itself, and no file of the archive is found there.
   */
  lemma LocalWithoutFileNameIsUnlinked(sliders: seq<SliderItem>, i: nat)
    requires i < |sliders| && sliders[i].isLocalFile && sliders[i].imageFileName == Some([])
    ensures HasLocal(sliders)
    ensures GeneratePage(sliders).slides[i].imageSrc == "./" + ImageFolder
    ensures forall e :: e in ZipContents(sliders) ==> !LinksTo(GeneratePage(sliders).slides[i].imageSrc, e)
  {
    var src := GeneratePage(sliders).slides[i].imageSrc;
    assert src == "./" + ImageFolder + [];
    assert |src| == 16;
    forall e | e in ZipContents(sliders)
      ensures !LinksTo(src, e)
    {
      if e in ImageEntries(sliders) {
        ImageEntriesSound(sliders, e);
        var j :| 0 <= j < |sliders| && IsEntryOf(e, sliders[j]);
        assert |e.path| > |ImageFolder|;
      }
    }
  }

  /** The archive entry an exported image becomes, if its data URL has base64 text. */
  function EntriesOfImages(images: seq<ExportImage>): seq<ZipEntry> {
    if images == [] then []
    else
      var last := images[|images| - 1];
      var data := Base64Data(last.data);
      EntriesOfImages(images[..|images| - 1])
        + (if Truthy(data) then [File(ImageFolder + last.fileName, Base64(data.value))] else [])
  }

  /**
   * The archive's images are `FileManager.exportWithImages`' images whose data
   * URL has base64 text, placed in the image folder: both pick the same records
   * in the same order.
   */
  lemma {:induction false} ZipImagesAreExportedImages(sliders: seq<SliderItem>)
    ensures ImageEntries(sliders) == EntriesOfImages(ImagesOf(sliders))
  {
    if sliders != [] {
      var init := sliders[..|sliders| - 1];
      var last := sliders[|sliders| - 1];
      ZipImagesAreExportedImages(init);
      var tail := if Exportable(last) then [ExportImage(last.imageFileName.value, last.image)] else [];
      EntriesOfImagesAppend(ImagesOf(init), tail);
    }
  }

  lemma EntriesOfImagesAppend(a: seq<ExportImage>, b: seq<ExportImage>)
    requires |b| <= 1
    ensures EntriesOfImages(a + b) == EntriesOfImages(a) + EntriesOfImages(b)
  {
    if b != [] {
      assert (a + b)[..|a + b| - 1] == a;
      assert b[..0] == [];
    } else {
      assert a + b == a;
    }
  }

  /**
   * `downloadAsZip`: the archive always starts with `index.html` and the image
   * folder, then one entry per zipped record in list order; `imageCount` counts
   * the images added.
   */
  method DownloadAsZip(sliders: seq<SliderItem>) returns (entries: seq<ZipEntry>, imageCount: nat)
    ensures entries == ZipContents(sliders)
    ensures entries[0] == File("index.html", HtmlPage(GeneratePage(sliders)))
    ensures imageCount == ZippedCount(sliders) == |entries| - 2
  {
    var htmlContent := GeneratePage(sliders);
    entries := [File("index.html", HtmlPage(htmlContent))];
    entries := entries + [Folder(ImageFolder)];
    imageCount := 0;
    for i := 0 to |sliders|
      invariant entries == [File("index.html", HtmlPage(htmlContent)), Folder(ImageFolder)] + ImageEntries(sliders[..i])
      invariant imageCount == |ImageEntries(sliders[..i])|
    {
      var slider := sliders[i];
      if slider.isLocalFile && slider.image != [] && Truthy(slider.imageFileName) {
        var base64Data := SecondField(slider.image);
        if Truthy(base64Data) {
          entries := entries + [File(ImageFolder + slider.imageFileName.value, Base64(base64Data.value))];
          imageCount := imageCount + 1;
        }
      }
      assert sliders[..i + 1][..i] == sliders[..i];
    }
    assert sliders[..|sliders|] == sliders;
    ImageEntriesCount(sliders);
  }

  // ---------------------------------------------------------------------------
  // The export decision (`exportHTML`) and the counts shown beside the button
  // ---------------------------------------------------------------------------

  /** What one press of the export button produces. */
  datatype ExportOutcome =
    | NothingToExport                                     // the empty-list alert
    | HtmlOnly(page: Page)                                // `downloadHTMLOnly`
    | ZipArchive(entries: seq<ZipEntry>, imageCount: nat) // `downloadAsZip`

  /**
   * `exportHTML`: nothing for an empty list; an archive when some record has a
   * local image; the bare page otherwise.
   */
  method ExportHtml(sliders: seq<SliderItem>) returns (out: ExportOutcome)
    ensures out.NothingToExport? <==> sliders == []
    ensures out.ZipArchive? <==> sliders != [] && HasLocal(sliders)
    ensures out.HtmlOnly? <==> sliders != [] && !HasLocal(sliders)
    ensures out.ZipArchive? ==> out.entries == ZipContents(sliders) && out.imageCount == ZippedCount(sliders)
    ensures out.HtmlOnly? ==> out.page == GeneratePage(sliders)
  {
    if |sliders| == 0 {
      return NothingToExport;
    }
    var hasLocalImages := exists i :: 0 <= i < |sliders| && sliders[i].isLocalFile;
    if hasLocalImages {
      var entries, imageCount := DownloadAsZip(sliders);
      out := ZipArchive(entries, imageCount);
    } else {
      out := HtmlOnly(GeneratePage(sliders));
    }
  }

  /** Records whose image is a URL: `sliders.length - localImageCount`. */
  function UrlCount(sliders: seq<SliderItem>): int {
    |sliders| - LocalCount(sliders)
  }

  /** The number of records that are not local, counted directly. */
  function NonLocalCount(sliders: seq<SliderItem>): nat {
    if sliders == [] then 0
    else NonLocalCount(sliders[..|sliders| - 1]) + (if sliders[|sliders| - 1].isLocalFile then 0 else 1)
  }

  /**
   * The URL count is the number of records that are not local, and the label's
   * `localImageCount > 0` agrees with the export's
   * `sliders.some(slider => slider.isLocalFile)`.
   */
  lemma {:induction false} CountsSpec(sliders: seq<SliderItem>)
    ensures UrlCount(sliders) == NonLocalCount(sliders)
    ensures LocalCount(sliders) > 0 <==> HasLocal(sliders)
  {
    if sliders != [] {
      var k := |sliders| - 1;
      var init := sliders[..k];
      CountsSpec(init);
      assert HasLocal(init) ==> HasLocal(sliders) by {
        if HasLocal(init) {
          var j :| 0 <= j < k && init[j].isLocalFile;
          assert sliders[j].isLocalFile;
        }
      }
      assert HasLocal(sliders) && !sliders[k].isLocalFile ==> HasLocal(init) by {
        if HasLocal(sliders) && !sliders[k].isLocalFile {
          var j :| 0 <= j < |sliders| && sliders[j].isLocalFile;
          assert init[j].isLocalFile;
        }
      }
    }
  }

  /** The archive holds no more images than there are local records. */
  lemma {:induction false} ImageCountAtMostLocal(sliders: seq<SliderItem>)
    ensures ZippedCount(sliders) <= LocalCount(sliders)
  {
    if sliders != [] {
      ImageCountAtMostLocal(sliders[..|sliders| - 1]);
    }
  }
}
