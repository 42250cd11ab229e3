/** The slide record and its draft form, as the React components pass them around. */
module SliderTypes {

  /** An optional value; `None` stands for JavaScript's `undefined`. */
  datatype Option<T> = None | Some(value: T)

  /** One slide of the user's list.  `imageFileName` is absent for images given by URL. */
  datatype SliderItem = SliderItem(
    id: string,
    title: string,
    text: string,
    image: string,          // a remote URL or a `data:` URL
    isLocalFile: bool,
    imageFileName: Option<string>)

  /** A slide record before the list owner gives it an id (`Omit<SliderItem, 'id'>`). */
  datatype SliderDraft = SliderDraft(
    title: string,
    text: string,
    image: string,
    isLocalFile: bool,
    imageFileName: Option<string>)

  /** JavaScript truthiness of an optional string: defined and not empty. */
  predicate Truthy(s: Option<string>) {
    s.Some? && s.value != ""
  }

  /** The record a draft becomes once it is given `id` (`{ ...slider, id }`). */
  function WithId(d: SliderDraft, id: string): (item: SliderItem)
    ensures item.id == id
  {
    SliderItem(id, d.title, d.text, d.image, d.isLocalFile, d.imageFileName)
  }

  /** The count of records that hold a local image (`sliders.filter(s => s.isLocalFile).length`). */
  function LocalCount(sliders: seq<SliderItem>): (k: nat)
    ensures k <= |sliders|
  {
    if sliders == [] then 0
    else LocalCount(sliders[..|sliders| - 1]) + (if sliders[|sliders| - 1].isLocalFile then 1 else 0)
  }

  /** `sliders.some(slider => slider.isLocalFile)` */
  predicate HasLocal(sliders: seq<SliderItem>) {
    exists i :: 0 <= i < |sliders| && sliders[i].isLocalFile
  }
}
