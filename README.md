# curved-slider: a Dafny model of the slide editor and its exporter

The curved-slider tool is a browser form. A user builds an ordered list of
slide records. Each record has a title, a text and an image, given either as a
remote URL or as a `data:` URL read from a local file. The list is exported as
a standalone HTML page with an embedded 3D carousel. When some record holds a
local image, the page is packed in a zip archive next to an image folder.

This project models the logic of that tool in Dafny and proves properties of it:

- `SliderTypes.dfy`: the slide record (`SliderItem`), the record before it gets
  an id (`SliderDraft`), JavaScript truthiness of an optional string, and the
  local-image count.
- `JsStrings.dfy`: the JavaScript string operations the code relies on. These are
  `trim` (over the ECMAScript white-space and line-terminator set), `startsWith`,
  `lastIndexOf`, `split(',')[1]`, the `/[^a-zA-Z0-9.-]/g → '_'` sanitiser and
  the decimal rendering of a number in a template literal.
- `FileManager.dfy`: `exportWithImages`, a loop proved against a
  filter-and-map specification, and `generateFileName`.
- `SliderList.dfy`: `addSlider` and `removeSlider` from `App.tsx`, as pure
  functions over the list.
- `SliderForm.dfy`: the form component as a class. Its four state fields are
  updated by the change handlers and cleared by a successful submit.
- `Carousel.dfy`: the navigation script of the exported page, as a class. It
  holds `currentIndex`, an array of slide position classes and an array of
  indicator flags. There is one method per event. `updateSlides` is a loop over
  each array. The indicator dots' click handler calls `goToSlide` with the dot's
  own index, so `GoToSlide` models it.
- `Export.dfy`: the structure of the generated page, the archive entries
  `downloadAsZip` collects, the zip-or-HTML choice of `exportHTML`, and the
  local and URL counts shown next to the button.

The archive is a list of entries: `index.html` holding the page, the
`slider-images/` folder entry that `zip.folder` creates, and one base64 file per
qualifying local image. The page is modelled by its structure, not by its bytes.
That structure is the slide blocks, the indicator dots, the counter, the total,
the title overlay and the titles handed to the script. The timestamp and the
random suffix (`Date.now()`, `Math.random()`) are parameters, and so is the new
record's id.

One path through the form gives a record the exporter cannot package. A
`data:` URL typed or pasted into the URL field gives a local record whose file
name is the empty string (`SliderForm.TypedDataUrlHasNoFileName`). Such a
record still makes `exportHTML` build a zip, but `downloadAsZip` skips its
image, and the page points at `./slider-images/`, where no file of the archive
lies (`Export.LocalWithoutFileNameIsUnlinked`).

## Model

| member | source | states |
|---|---|---|
| `SliderTypes.WithId` | src/App.tsx:11-14 | the record built from a draft carries the supplied id |
| `SliderTypes.LocalCount` | src/components/ExportButton.tsx:728 | the number of local records never exceeds the list length |
| `SliderTypes.HasLocal` | src/components/ExportButton.tsx:621 | `sliders.some(s => s.isLocalFile)`, defined by its body; `Export.CountsSpec` ties it to a positive `LocalCount` |
| `JsStrings.TrimStart` | src/components/SliderForm.tsx:43 | the result is a suffix that is empty exactly for a blank string, starts with a non-space, and only white space was cut |
| `JsStrings.TrimEnd` | src/components/SliderForm.tsx:43 | the result is a prefix that is empty exactly for a blank string, ends with a non-space, and only white space was cut |
| `JsStrings.Trim` | src/components/SliderForm.tsx:43-47 | `trim()` is `TrimEnd` after `TrimStart`; `JsStrings.TrimSpec` and `JsStrings.TrimIdempotent` state what it keeps |
| `JsStrings.StartsWith` | src/components/SliderForm.tsx:44 | `startsWith(p)`, defined by its body as a prefix test; `SliderForm.DraftOfSpec` uses it for `data:` |
| `JsStrings.TrimSpec` | src/components/SliderForm.tsx:43 | `trim()` is empty iff the string is all white space; otherwise it is the slice between leading and trailing white space, with non-space ends |
| `JsStrings.TrimIdempotent` | src/components/SliderForm.tsx:46-47 | trimming a trimmed string changes nothing |
| `JsStrings.LastIndexOf` | src/utils/fileManager.ts:35 | -1 iff the character is absent; otherwise the index holds the character and no later index does |
| `JsStrings.BeforeComma` | src/components/ExportButton.tsx:560 | the result is the comma-free prefix up to the first comma or the end |
| `JsStrings.SecondField` | src/components/ExportButton.tsx:560 | `split(',')[1]` is undefined iff there is no comma; otherwise it is the text from the first comma up to the next comma or the end |
| `JsStrings.SecondFieldOfDataUrl` | src/components/ExportButton.tsx:560 | for a data URL `header,payload` with one comma the extracted text is the whole payload |
| `JsStrings.SafeName` | src/utils/fileManager.ts:30 | same length as the input; each character is kept when in `[a-zA-Z0-9.-]` and becomes `_` otherwise |
| `JsStrings.SafeNameIdempotent` | src/utils/fileManager.ts:30 | sanitising twice equals sanitising once; every character of the result is in `[a-zA-Z0-9.-]` or is `_` |
| `JsStrings.SafeNameOfSafe` | src/utils/fileManager.ts:30 | a name made only of `[a-zA-Z0-9.-]` is unchanged |
| `JsStrings.SafeNameAppend` | src/utils/fileManager.ts:30 | sanitising distributes over concatenation |
| `JsStrings.SafeNameDots` | src/utils/fileManager.ts:30-35 | sanitising keeps every `.` in place and adds none, so the last dot is at the same index |
| `JsStrings.Decimal` | src/components/ExportButton.tsx:318 | a number prints as a non-empty string of digits without a leading zero |
| `JsStrings.DecimalValue` | src/components/ExportButton.tsx:318 | the digits printed for `n` denote `n`, read left to right in base ten |
| `JsStrings.DecimalInjective` | src/components/ExportButton.tsx:318 | different numbers print differently, so the counter and total name the slide number exactly |
| `FileManager.ImagesOfAppend` | src/utils/fileManager.ts:16-23 | the image list of a concatenation is the concatenation of the image lists, so input order is kept |
| `FileManager.ImagesOfSpec` | src/utils/fileManager.ts:16-23 | an entry is in the result iff some record is local with non-empty file name and image and the entry is that record's (`fileName`, `data`); the result is never longer than the input |
| `FileManager.ImagesOfNoLocal` | src/utils/fileManager.ts:17 | a list without local records exports no image |
| `FileManager.Exportable` | src/utils/fileManager.ts:17 | the loop's condition `isLocalFile && imageFileName && image`, defined by its body |
| `FileManager.ImagesOf` | src/utils/fileManager.ts:16-23 | the filter-and-map the loop computes, defined by its body; `FileManager.ImagesOfSpec` and `FileManager.ImagesOfAppend` state membership and order |
| `FileManager.ExportWithImages` | src/utils/fileManager.ts:13-26 | the loop returns exactly the specified image list |
| `FileManager.GenerateFileName` | src/utils/fileManager.ts:28-43 | `generateFileName` with the timestamp and random suffix as parameters, defined by its body; `FileManager.GenerateFileNameWithExtension`, `FileManager.GenerateFileNameWithoutExtension` and `FileManager.GenerateFileNameLength` state its two cases and its length |
| `FileManager.GenerateFileNameWithExtension` | src/utils/fileManager.ts:35-39 | for a name whose last dot is past index 0, the result is the sanitised stem, `_`, timestamp, `_`, random and the sanitised extension from the last dot |
| `FileManager.GenerateFileNameWithoutExtension` | src/utils/fileManager.ts:35-42 | with no dot, or only a dot at index 0, the result is the sanitised name, `_`, timestamp, `_`, random |
| `FileManager.GenerateFileNameLength` | src/utils/fileManager.ts:28-42 | the result is the name's length plus the stamp's plus two separators, so no character of the name is lost |
| `SliderList.Ids` | src/App.tsx:19 | the id list has one id per record, in order |
| `SliderList.AddSlider` | src/App.tsx:10-16 | the old list is kept as a prefix and one record with the draft's fields and the given id is appended |
| `SliderList.RemoveSlider` | src/App.tsx:18-20 | removing never lengthens the list |
| `SliderList.RemoveSliderAppend` | src/App.tsx:19 | removal works part by part on a concatenation, so kept records stay in their order |
| `SliderList.RemoveSliderMembers` | src/App.tsx:19 | a record remains iff it was present and has a different id; no remaining record has the id |
| `SliderList.RemoveAbsentId` | src/App.tsx:19 | removing an absent id leaves the list unchanged |
| `SliderList.RemovePresentId` | src/App.tsx:19 | with distinct ids, removing a present id shortens the list by exactly one |
| `SliderList.RemoveUndoesAdd` | src/App.tsx:10-20 | adding under a fresh id and removing that id gives back the original list |
| `SliderList.AddKeepsDistinct` | src/App.tsx:10-16 | adding under a fresh id keeps ids distinct |
| `SliderForm.CanSubmitMeansNonBlank` | src/components/SliderForm.tsx:43 | the form accepts iff title and text each contain a non-space character and the image is non-empty |
| `SliderForm.CanSubmit` | src/components/SliderForm.tsx:43 | `handleSubmit`'s condition `title.trim() && text.trim() && image`, defined by its body; `SliderForm.CanSubmitMeansNonBlank` states it without `trim` |
| `SliderForm.IsDataUrl` | src/components/SliderForm.tsx:44 | `image.startsWith('data:')`, defined by its body; `SliderForm.DraftOfSpec` spells it out as a prefix |
| `SliderForm.DraftOf` | src/components/SliderForm.tsx:44-51 | the record literal passed to `onAddSlider`, defined by its body; `SliderForm.DraftOfSpec` states its fields |
| `SliderForm.SubmitEnabled` | src/components/SliderForm.tsx:200 | the submit button is enabled exactly when `handleSubmit` accepts |
| `SliderForm.DraftOfSpec` | src/components/SliderForm.tsx:44-51 | the submitted record has non-empty trimmed title and text and the unchanged image; it is local iff the image starts with `data:`; it keeps the file name iff it is local |
| `SliderForm.StoredFileName` | src/components/SliderForm.tsx:17-20 | the stored name is the timestamp, `_`, then the file name with each character in `[a-zA-Z0-9.-]` kept and every other character replaced by `_`, position by position |
| `SliderForm.Form.constructor` | src/components/SliderForm.tsx:9-12 | all four fields start empty |
| `SliderForm.Form.SetTitle` | src/components/SliderForm.tsx:83 | the title becomes the typed value |
| `SliderForm.Form.SetText` | src/components/SliderForm.tsx:104 | the text becomes the typed value |
| `SliderForm.Form.HandleFileChange` | src/components/SliderForm.tsx:14-23 | with a chosen file the stored name becomes its stored form; with none nothing changes |
| `SliderForm.Form.HandleFileLoaded` | src/components/SliderForm.tsx:26-31 | the read data URL becomes the image |
| `SliderForm.Form.HandleURLChange` | src/components/SliderForm.tsx:36-40 | the image becomes the typed URL and the stored file name is cleared |
| `SliderForm.Form.HandlePreviewError` | src/components/SliderForm.tsx:177-182 | a URL image that fails to load is cleared; a `data:` image is kept |
| `SliderForm.Form.HandleSubmit` | src/components/SliderForm.tsx:42-65 | returns a record iff the form accepts; the record is the specified draft; after a submit all four fields are empty; after a refusal the form is unchanged |
| `SliderForm.ChosenFileNameIsNonEmpty` | src/components/SliderForm.tsx:44-50 | a local record submitted after a file pick has a non-empty file name |
| `SliderForm.TypedDataUrlHasNoFileName` | src/components/SliderForm.tsx:36-50 | a `data:` URL typed into the URL field gives a local record whose file name is empty |
| `Carousel.StepValues` | src/components/ExportButton.tsx:433-438 | next wraps from n-1 to 0 and otherwise adds one; prev wraps from 0 to n-1 and otherwise subtracts one |
| `Carousel.NextIndex` | src/components/ExportButton.tsx:438 | `(currentIndex + 1) % slides.length`, defined by its body; `Carousel.StepValues` and `Carousel.NextPrevInverse` state its values |
| `Carousel.PrevIndex` | src/components/ExportButton.tsx:433 | `(currentIndex - 1 + slides.length) % slides.length`, defined by its body; `Carousel.StepValues` and `Carousel.NextPrevInverse` state its values |
| `Carousel.NextPrevInverse` | src/components/ExportButton.tsx:432-440 | for n ≥ 1 both moves keep the index in [0, n), and each undoes the other |
| `Carousel.NextTimesRotates` | src/components/ExportButton.tsx:437-440 | k presses of next move the index to (c + k) mod n |
| `Carousel.FullRound` | src/components/ExportButton.tsx:437-440 | n presses of next return to the starting slide |
| `Carousel.ClassForSpec` | src/components/ExportButton.tsx:400-409 | a slide is active iff it is current; it is prev iff n ≥ 2 and it is the cyclic predecessor; every other slide is next; no slide is left without a class |
| `Carousel.ClassCounts` | src/components/ExportButton.tsx:400-409 | exactly one slide is active; one is prev when n ≥ 2 and none when n = 1 |
| `Carousel.ClassFor` | src/components/ExportButton.tsx:400-409 | the class `updateSlides` gives one slide, defined by its body; `Carousel.ClassForSpec` and `Carousel.ClassCounts` state it |
| `Carousel.DisplayTitle` | src/components/ExportButton.tsx:418 | the shown title is the title when non-empty, and otherwise `Slide ` followed by index + 1 |
| `Carousel.SwipeMove` | src/components/ExportButton.tsx:473-493 | a touch moves iff \|dx\| > \|dy\| and \|dx\| > 100; it moves back iff in addition dx > 0 |
| `Carousel.SwipeMirror` | src/components/ExportButton.tsx:484-491 | mirroring the horizontal distance swaps back and forward |
| `Carousel.MoveIndex` | src/components/ExportButton.tsx:484-491 | the index after a swipe decision, defined by its body; `Carousel.EventIndicesInRange` keeps it in range |
| `Carousel.KeyIndex` | src/components/ExportButton.tsx:450-466 | the index the `keydown` handler moves to, defined by its body; `Carousel.EventIndicesInRange` keeps it in range |
| `Carousel.EventIndicesInRange` | src/components/ExportButton.tsx:450-493 | every key and swipe move keeps the index in [0, n) |
| `Carousel.Slider.constructor` | src/components/ExportButton.tsx:386-523 | the slider starts at index 0 over the page's titles and the first redraw leaves it valid |
| `Carousel.Slider.UpdateSlides` | src/components/ExportButton.tsx:399-423 | every slide gets its class from the index, exactly the current dot is active, the counter shows index + 1, the overlay shows the current display title, and both buttons are enabled |
| `Carousel.Slider.GoToSlide` | src/components/ExportButton.tsx:425-430 | jumps to the index iff 0 ≤ index < n; otherwise nothing changes |
| `Carousel.Slider.PrevClick` | src/components/ExportButton.tsx:432-435 | the index becomes its cyclic predecessor and the page is redrawn |
| `Carousel.Slider.NextClick` | src/components/ExportButton.tsx:437-440 | the index becomes its cyclic successor and the page is redrawn |
| `Carousel.Slider.KeyDown` | src/components/ExportButton.tsx:450-466 | left and right arrows step; Home goes to 0; End goes to n-1; any other key changes nothing |
| `Carousel.Slider.TouchStart` | src/components/ExportButton.tsx:475-478 | the touch origin is recorded |
| `Carousel.Slider.TouchEnd` | src/components/ExportButton.tsx:480-494 | the index follows the swipe decision for the distance from the origin; a touch that does not qualify changes nothing; the touch origin is never changed, so a later `touchend` measures from the same point |
| `Export.PageStructure` | src/components/ExportButton.tsx:318-359 | one slide block and one dot per record, in order; the total is the length; only block 0 and dot 0 start active; only block 1 starts as next; headings use the title fallback |
| `Export.PageImageSources` | src/components/ExportButton.tsx:333-343 | a local record's source is `./slider-images/` followed by its file name; a URL record's source is its image verbatim |
| `Export.PageAgreesWithFirstRender` | src/components/ExportButton.tsx:317-418 | the page as written shows the counter, overlay title, active slide and active dot that the script's first redraw produces |
| `Export.GeneratePage` | src/components/ExportButton.tsx:13-359 | the record-dependent parts of the page, defined by its body; `Export.PageStructure`, `Export.PageImageSources` and `Export.PageAgreesWithFirstRender` state them |
| `Export.ImageEntriesAppend` | src/components/ExportButton.tsx:547-574 | image entries of a concatenation are the concatenation of the entries, so list order is kept |
| `Export.Zipped` | src/components/ExportButton.tsx:557-561 | the two conditions under which a record's image is added, defined by its body |
| `Export.ImageEntries` | src/components/ExportButton.tsx:547-563 | the image files the loop adds, defined by its body; `Export.ImageEntriesSound`, `Export.ImageEntriesComplete` and `Export.ImageEntriesCount` state them |
| `Export.ZipContents` | src/components/ExportButton.tsx:538-563 | `index.html`, the image folder, then the image files, defined by its body; `Export.DownloadAsZip` is proved to build it |
| `Export.ImageEntriesCount` | src/components/ExportButton.tsx:546-574 | there is one image entry per record that is local, has image and file name, and has a non-empty segment after the first comma |
| `Export.ImageEntriesSound` | src/components/ExportButton.tsx:557-563 | every image entry is `slider-images/<file name>` holding some qualifying record's base64 text |
| `Export.ImageEntriesComplete` | src/components/ExportButton.tsx:557-563 | every qualifying record has its entry in the archive |
| `Export.PageFindsZippedImages` | src/components/ExportButton.tsx:557-562 | for every qualifying record, the image path the page uses (line 334) is `./` plus the path of a file in the archive |
| `Export.LocalWithoutFileNameIsUnlinked` | src/components/ExportButton.tsx:334 | a local record with an empty file name still makes `exportHTML` choose the zip, but its page image is `./slider-images/`, which no file of the archive matches |
| `Export.ZipImagesAreExportedImages` | src/components/ExportButton.tsx:557-563 | the archive's images are exactly `exportWithImages`' images whose data URL has base64 text, in the same order |
| `Export.DownloadAsZip` | src/components/ExportButton.tsx:529-574 | the archive starts with `index.html` and the image folder, then holds the specified image entries; `imageCount` equals the number of qualifying records |
| `Export.ExportHtml` | src/components/ExportButton.tsx:612-681 | an empty list exports nothing; a zip is produced iff the list is non-empty and some record is local; otherwise the page alone |
| `Export.CountsSpec` | src/components/ExportButton.tsx:728-729 | the URL count equals the number of non-local records; a positive local count agrees with `sliders.some(isLocalFile)` |
| `Export.UrlCount` | src/components/ExportButton.tsx:729 | `sliders.length - localImageCount`, defined by its body; `Export.CountsSpec` states it is the number of non-local records |
| `Export.ImageCountAtMostLocal` | src/components/ExportButton.tsx:546-574 | the archive never holds more images than there are local records |

## Left out

- The markup, CSS, static instruction texts, alerts and `console.log` calls are
  presentation only. The page is modelled as structure, not bytes, and text is
  inserted unescaped, as the code does.
- JSZip's archive generation, the Blob and `URL.createObjectURL` download, the
  anchor click and the `window.open` preview are foreign library and browser I/O.
  The archive is the list of entries handed to JSZip. If two records share a
  file name, JSZip keeps only the later file; this is not modelled.
- JSZip decodes the base64 payload, and that decoding is not visible. The model
  extracts only the payload text. A failure of JSZip on malformed base64, and
  the catch that reports it, are not modelled.
- `FileReader`, `validateImage` and `getImageDimensions` are asynchronous image
  loading. Only the handler that stores the read data URL is modelled
  (`HandleFileLoaded`).
- `formatFileSize` uses floating-point `Math.log`, `Math.pow` and `toFixed`.
- `Date.now()` and `Math.random()` are nondeterministic. They are passed in as
  strings, and the new record's id is passed in. `AddKeepsDistinct` and
  `RemoveUndoesAdd` assume the id is fresh.
- `setTimeout` delays and the commented-out autoplay are timing only.
  `preventDefault` on keys, the `isExporting` busy flag and the clearing of the
  file input element are browser state with no effect on the list or the export.
- `previewSliders` opens the same page in a window; only the page is modelled.
- src/components/SliderPreview.tsx is rendering plus a confirmation toggle.
- The `maxLength` limits (100 and 500) are enforced by the browser on typing.
  The model's fields accept any string.
- Strings are sequences of Unicode scalar values, but JavaScript strings are
  UTF-16 code units. A character outside the Basic Multilingual Plane is one
  `_` in `SafeName` here and two in the source, and indices differ by the same
  amount.
- `Carousel.Slider.constructor` requires at least one slide. With none, the
  script fails at `slideData[0]`, and both export and preview refuse an empty
  list before a page is made.
- Touch coordinates are real numbers. JavaScript's `%` truncates, but every
  operand here is non-negative, so it agrees with Dafny's `%`.
- src/types is not part of this model. The record's fields are taken from their
  uses: `imageFileName` is optional, and `undefined` prints as the word
  `undefined` in the page.
