/** `FileManager` of src/utils/fileManager.ts: the image list of an export and unique file names. */
module FileManager {
  import opened SliderTypes
  import opened JsStrings

  /** `ExportImage`: a file name and the data URL it holds. */
  datatype ExportImage = ExportImage(fileName: string, data: string)

  /** The record carries an image that `exportWithImages` exports. */
  predicate Exportable(s: SliderItem) {
    s.isLocalFile && Truthy(s.imageFileName) && s.image != ""
  }

  /** `e` is the image that record `s` exports. */
  predicate IsImageOf(e: ExportImage, s: SliderItem) {
    Exportable(s) && e == ExportImage(s.imageFileName.value, s.image)
  }

  /** The images of `sliders`, in list order: the specification of `ExportWithImages`. */
  function ImagesOf(sliders: seq<SliderItem>): seq<ExportImage> {
    if sliders == [] then []
    else
      var last := sliders[|sliders| - 1];
      ImagesOf(sliders[..|sliders| - 1])
        + (if Exportable(last) then [ExportImage(last.imageFileName.value, last.image)] else [])
  }

  /** Taking the images of a concatenation takes them part by part, so the order is kept. */
  lemma {:induction false} ImagesOfAppend(a: seq<SliderItem>, b: seq<SliderItem>)
    ensures ImagesOf(a + b) == ImagesOf(a) + ImagesOf(b)
  {
    if b == [] {
      assert a + b == a;
    } else {
      ImagesOfAppend(a, b[..|b| - 1]);
      assert (a + b)[..|a + b| - 1] == a + b[..|b| - 1];
    }
  }

  /**
   * Every exported image comes from an exportable record and carries its file
   * name and data; every exportable record contributes one; so there are never
   * more images than records.
   */
  lemma {:induction false} ImagesOfSpec(sliders: seq<SliderItem>)
    ensures |ImagesOf(sliders)| <= |sliders|
    ensures forall e :: e in ImagesOf(sliders) <==> exists i :: 0 <= i < |sliders| && IsImageOf(e, sliders[i])
  {
    if sliders != [] {
      var init := sliders[..|sliders| - 1];
      ImagesOfSpec(init);
      forall e | e in ImagesOf(sliders)
        ensures exists i :: 0 <= i < |sliders| && IsImageOf(e, sliders[i])
      {
        if e in ImagesOf(init) {
          var i :| 0 <= i < |init| && IsImageOf(e, init[i]);
          assert sliders[i] == init[i];
        } else {
          assert IsImageOf(e, sliders[|sliders| - 1]);
        }
      }
      forall e | exists i :: 0 <= i < |sliders| && IsImageOf(e, sliders[i])
        ensures e in ImagesOf(sliders)
      {
        var i :| 0 <= i < |sliders| && IsImageOf(e, sliders[i]);
        if i < |init| {
          assert init[i] == sliders[i];
        }
      }
    }
  }

  /** A list without local images exports no image. */
  lemma {:induction false} ImagesOfNoLocal(sliders: seq<SliderItem>)
    requires forall i :: 0 <= i < |sliders| ==> !sliders[i].isLocalFile
    ensures ImagesOf(sliders) == []
  {
    if sliders != [] {
      ImagesOfNoLocal(sliders[..|sliders| - 1]);
    }
  }

  /** `FileManager.exportWithImages`: collects the images of the local records, in order. */
  method ExportWithImages(sliders: seq<SliderItem>) returns (images: seq<ExportImage>)
    ensures images == ImagesOf(sliders)
  {
    images := [];
    for i := 0 to |sliders|
      invariant images == ImagesOf(sliders[..i])
    {
      var slider := sliders[i];
      if slider.isLocalFile && Truthy(slider.imageFileName) && slider.image != "" {
        images := images + [ExportImage(slider.imageFileName.value, slider.image)];
      }
      assert sliders[..i + 1][..i] == sliders[..i];
    }
    assert sliders[..|sliders|] == sliders;
  }

  /**
   * `FileManager.generateFileName(originalName)`, with `timestamp` the decimal
   * text of `Date.now()` and `random` the base-36 suffix drawn from `Math.random()`.
   * The sanitised name is split at its last `.` when that dot is not the first
   * character, and the timestamp and suffix go before the extension.
   */
  function GenerateFileName(originalName: string, timestamp: string, random: string): string {
    var cleanName := SafeName(originalName);
    var lastDotIndex := LastIndexOf(cleanName, '.');
    if lastDotIndex > 0 then
      cleanName[..lastDotIndex] + "_" + timestamp + "_" + random + cleanName[lastDotIndex..]
    else
      cleanName + "_" + timestamp + "_" + random
  }

  /**
   * When the original name has a dot after its first character, the generated
   * name is the sanitised stem, the stamp, and the sanitised extension: the part
   * from the last dot on, which holds no other dot.
   */
  lemma GenerateFileNameWithExtension(stem: string, ext: string, timestamp: string, random: string)
    requires stem != [] && ext != [] && ext[0] == '.' && '.' !in ext[1..]
    ensures GenerateFileName(stem + ext, timestamp, random)
      == SafeName(stem) + "_" + timestamp + "_" + random + SafeName(ext)
  {
    var name := stem + ext;
    SafeNameAppend(stem, ext);
    SafeNameDots(name);
    var d := LastIndexOf(name, '.');
    assert name[|stem|] == '.';
    assert d == |stem| by {
      forall j | |stem| < j < |name| ensures name[j] != '.' {
        assert name[j] == ext[1..][j - |stem| - 1];
      }
    }
    var clean := SafeName(name);
    assert clean[..d] == SafeName(stem);
    assert clean[d..] == SafeName(ext);
  }

  /**
   * When the original name has no dot, or its only dot is its first character
   * (a hidden-file name such as `.png`), the stamp goes at the very end.
   */
  lemma GenerateFileNameWithoutExtension(name: string, timestamp: string, random: string)
    requires '.' !in name || (name[0] == '.' && '.' !in name[1..])
    ensures GenerateFileName(name, timestamp, random) == SafeName(name) + "_" + timestamp + "_" + random
  {
    SafeNameDots(name);
    if '.' in name {
      assert name[0] == '.';
      forall j | 0 < j < |name| ensures name[j] != '.' {
        assert name[j] == name[1..][j - 1];
      }
      assert LastIndexOf(name, '.') == 0;
    }
  }

  /** The stamp adds its own characters and two `_`; sanitising drops no character of the name. */
  lemma GenerateFileNameLength(name: string, timestamp: string, random: string)
    ensures |GenerateFileName(name, timestamp, random)| == |name| + |timestamp| + |random| + 2
  {
  }
}
