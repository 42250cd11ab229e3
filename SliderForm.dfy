/**
 * The input form of src/components/SliderForm.tsx: four pieces of component
 * state that the change handlers overwrite and that a successful submit clears.
 */
module SliderForm {
  import opened SliderTypes
  import opened JsStrings

  /** `title.trim() && text.trim() && image`: the condition under which a record is added. */
  predicate CanSubmit(title: string, text: string, image: string) {
    Trim(title) != [] && Trim(text) != [] && image != []
  }

  /** The form accepts exactly when title and text each hold a non-blank character and an image is set. */
  lemma CanSubmitMeansNonBlank(title: string, text: string, image: string)
    ensures CanSubmit(title, text, image) <==> !AllWhitespace(title) && !AllWhitespace(text) && image != []
  {
    TrimSpec(title);
    TrimSpec(text);
  }

  /** The submit button's `disabled={!title.trim() || !text.trim() || !image}`, negated. */
  function SubmitEnabled(title: string, text: string, image: string): (enabled: bool)
    ensures enabled <==> CanSubmit(title, text, image)
  {
    !(Trim(title) == [] || Trim(text) == [] || image == [])
  }

  /** `image.startsWith('data:')`: the image was read from a local file. */
  predicate IsDataUrl(image: string) {
    StartsWith(image, "data:")
  }

  /** The record literal that `handleSubmit` passes to `onAddSlider`. */
  function DraftOf(title: string, text: string, image: string, imageFileName: string): SliderDraft {
    var isLocalFile := IsDataUrl(image);
    SliderDraft(Trim(title), Trim(text), image, isLocalFile,
      if isLocalFile then Some(imageFileName) else None)
  }

  /**
   * The submitted record has its title and text trimmed, and non-empty when the
   * form accepted them; the image is kept as it is; the record is local exactly
   * when the image is a `data:` URL, and only a local record keeps the file name.
   */
  lemma DraftOfSpec(title: string, text: string, image: string, imageFileName: string)
    requires CanSubmit(title, text, image)
    ensures var d := DraftOf(title, text, image, imageFileName);
      && d.title != [] && Trim(d.title) == d.title
      && d.text != [] && Trim(d.text) == d.text
      && d.image == image
      && (d.isLocalFile <==> |image| >= 5 && image[..5] == "data:")
      && (d.imageFileName.Some? <==> d.isLocalFile)
      && (d.isLocalFile ==> d.imageFileName == Some(imageFileName))
  {
    TrimIdempotent(title);
    TrimIdempotent(text);
  }

  /** The name under which a chosen file is stored: `${timestamp}_${safeName}`. */
  function StoredFileName(timestamp: string, fileName: string): (r: string)
    ensures |r| == |timestamp| + 1 + |fileName|
    ensures r[..|timestamp|] == timestamp && r[|timestamp|] == '_'
    ensures forall i :: 0 <= i < |fileName| ==>
      r[|timestamp| + 1 + i] == (if IsSafeChar(fileName[i]) then fileName[i] else '_')
  {
    timestamp + "_" + SafeName(fileName)
  }

  class Form {
    var title: string
    var text: string
    var image: string
    var imageFileName: string

    /** The four `useState('')` hooks. */
    constructor ()
      ensures title == [] && text == [] && image == [] && imageFileName == []
    {
      title, text, image, imageFileName := [], [], [], [];
    }

    /** The title input's `onChange`. */
    method SetTitle(value: string)
      modifies this`title
      ensures title == value
    {
      title := value;
    }

    /** The text area's `onChange`. */
    method SetText(value: string)
      modifies this`text
      ensures text == value
    {
      text := value;
    }

    /**
     * `handleFileChange`: when a file was chosen, its stored name becomes the
     * timestamp, `_` and the sanitised file name; with no file nothing changes.
     * The image itself arrives later, through `HandleFileLoaded`.
     */
    method HandleFileChange(file: Option<string>, timestamp: string)
      modifies this`imageFileName
      ensures file.Some? ==> imageFileName == StoredFileName(timestamp, file.value)
      ensures file.None? ==> imageFileName == old(imageFileName)
    {
      if file.Some? {
        var safeName := SafeName(file.value);
        imageFileName := timestamp + "_" + safeName;
      }
    }

    /** The `FileReader`'s `onloadend`: the data URL of the chosen file becomes the image. */
    method HandleFileLoaded(dataUrl: string)
      modifies this`image
      ensures image == dataUrl
    {
      image := dataUrl;
    }

    /** `handleURLChange`: the typed URL becomes the image and the stored file name is cleared. */
    method HandleURLChange(url: string)
      modifies this`image, this`imageFileName
      ensures image == url && imageFileName == []
    {
      image := url;
      imageFileName := [];
    }

    /**
     * The preview image's `onError`: an image given by URL that fails to load is
     * cleared; a `data:` image is kept.
     */
    method HandlePreviewError()
      modifies this`image
      ensures image == if IsDataUrl(old(image)) then old(image) else []
    {
      if !StartsWith(image, "data:") {
        image := [];
      }
    }

    /**
     * `handleSubmit`: when the form accepts, returns the record handed to
     * `onAddSlider` and clears all four fields; otherwise (the alert branch)
     * returns nothing and leaves the form as it was.
     */
    method HandleSubmit() returns (added: Option<SliderDraft>)
      modifies this
      ensures added.Some? <==> CanSubmit(old(title), old(text), old(image))
      ensures added.Some? ==> added.value == DraftOf(old(title), old(text), old(image), old(imageFileName))
      ensures added.Some? ==> title == [] && text == [] && image == [] && imageFileName == []
      ensures added.None? ==> unchanged(this)
    {
      if Trim(title) != [] && Trim(text) != [] && image != [] {
        var isLocalFile := StartsWith(image, "data:");
        added := Some(SliderDraft(Trim(title), Trim(text), image, isLocalFile,
          if isLocalFile then Some(imageFileName) else None));
        title := [];
        text := [];
        image := [];
        imageFileName := [];
      } else {
        added := None;
      }
    }
  }

  /**
   * A local record submitted after a file was chosen carries a non-empty file
   * name, so the image export picks it up.
   */
  lemma ChosenFileNameIsNonEmpty(title: string, text: string, image: string, timestamp: string, fileName: string)
    requires CanSubmit(title, text, image) && IsDataUrl(image)
    ensures Truthy(DraftOf(title, text, image, StoredFileName(timestamp, fileName)).imageFileName)
  {
  }

  /**
   * A `data:` URL typed into the URL field makes a local record whose file name
   * is the empty string: nothing marks it for the image folder.
   */
  lemma TypedDataUrlHasNoFileName(title: string, text: string, url: string)
    requires CanSubmit(title, text, url) && IsDataUrl(url)
    ensures DraftOf(title, text, url, []).isLocalFile
    ensures !Truthy(DraftOf(title, text, url, []).imageFileName)
  {
  }
}
