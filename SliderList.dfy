/** The list owner of src/App.tsx: `addSlider` and `removeSlider` build a new list each time. */
module SliderList {
  import opened SliderTypes

  /** The ids of the records, in list order. */
  function Ids(sliders: seq<SliderItem>): (ids: seq<string>)
    ensures |ids| == |sliders|
    ensures forall i :: 0 <= i < |sliders| ==> ids[i] == sliders[i].id
  {
    if sliders == [] then [] else Ids(sliders[..|sliders| - 1]) + [sliders[|sliders| - 1].id]
  }

  /** No two records share an id. */
  predicate DistinctIds(sliders: seq<SliderItem>) {
    forall i, j :: 0 <= i < j < |sliders| ==> sliders[i].id != sliders[j].id
  }

  /**
   * `addSlider(slider)`: the new record, given the fresh `id` that the source
   * draws from `Date.now()` and `Math.random()`, goes at the end of the list.
   */
  function AddSlider(sliders: seq<SliderItem>, draft: SliderDraft, id: string): (r: seq<SliderItem>)
    ensures |r| == |sliders| + 1
    ensures r[..|sliders|] == sliders
    ensures r[|sliders|].id == id && r[|sliders|].title == draft.title && r[|sliders|].text == draft.text
    ensures r[|sliders|].image == draft.image && r[|sliders|].isLocalFile == draft.isLocalFile
    ensures r[|sliders|].imageFileName == draft.imageFileName
  {
    sliders + [WithId(draft, id)]
  }

  /** `removeSlider(id)`: `sliders.filter(slider => slider.id !== id)`. */
  function RemoveSlider(sliders: seq<SliderItem>, id: string): (r: seq<SliderItem>)
    ensures |r| <= |sliders|
  {
    if sliders == [] then []
    else
      var last := sliders[|sliders| - 1];
      RemoveSlider(sliders[..|sliders| - 1], id) + (if last.id != id then [last] else [])
  }

  /** Removing from a concatenation removes from each part, so the kept records stay in order. */
  lemma {:induction false} RemoveSliderAppend(a: seq<SliderItem>, b: seq<SliderItem>, id: string)
    ensures RemoveSlider(a + b, id) == RemoveSlider(a, id) + RemoveSlider(b, id)
  {
    if b == [] {
      assert a + b == a;
    } else {
      RemoveSliderAppend(a, b[..|b| - 1], id);
      assert (a + b)[..|a + b| - 1] == a + b[..|b| - 1];
    }
  }

  /** Afterwards a record is in the list exactly when it was before and has another id. */
  lemma {:induction false} RemoveSliderMembers(sliders: seq<SliderItem>, id: string)
    ensures forall s :: s in RemoveSlider(sliders, id) <==> s in sliders && s.id != id
  {
    if sliders != [] {
      var init := sliders[..|sliders| - 1];
      RemoveSliderMembers(init, id);
      assert sliders == init + [sliders[|sliders| - 1]];
    }
  }

  /** Removing an id that no record has gives back the same list. */
  lemma {:induction false} RemoveAbsentId(sliders: seq<SliderItem>, id: string)
    requires id !in Ids(sliders)
    ensures RemoveSlider(sliders, id) == sliders
  {
    if sliders != [] {
      var init := sliders[..|sliders| - 1];
      assert Ids(init) == Ids(sliders)[..|init|];
      RemoveAbsentId(init, id);
      assert sliders == init + [sliders[|sliders| - 1]];
    }
  }

  /** With distinct ids, removing an id that is present drops exactly one record. */
  lemma {:induction false} RemovePresentId(sliders: seq<SliderItem>, id: string)
    requires DistinctIds(sliders) && id in Ids(sliders)
    ensures |RemoveSlider(sliders, id)| == |sliders| - 1
  {
    var init := sliders[..|sliders| - 1];
    var last := sliders[|sliders| - 1];
    if last.id == id {
      forall k | 0 <= k < |init| ensures Ids(init)[k] != id {
        assert init[k] == sliders[k];
      }
      RemoveAbsentId(init, id);
    } else {
      assert id in Ids(init) by {
        var k :| 0 <= k < |sliders| && Ids(sliders)[k] == id;
        assert k < |init|;
        assert Ids(init)[k] == id;
      }
      RemovePresentId(init, id);
    }
  }

  /** Adding a record under a fresh id and then removing that id restores the list. */
  lemma RemoveUndoesAdd(sliders: seq<SliderItem>, draft: SliderDraft, id: string)
    requires id !in Ids(sliders)
    ensures RemoveSlider(AddSlider(sliders, draft, id), id) == sliders
  {
    var r := AddSlider(sliders, draft, id);
    assert r[..|r| - 1] == sliders;
    RemoveAbsentId(sliders, id);
  }

  /** A fresh id keeps the ids distinct after an add. */
  lemma AddKeepsDistinct(sliders: seq<SliderItem>, draft: SliderDraft, id: string)
    requires DistinctIds(sliders) && id !in Ids(sliders)
    ensures DistinctIds(AddSlider(sliders, draft, id))
  {
    var r := AddSlider(sliders, draft, id);
    forall i | 0 <= i < |sliders| ensures r[i].id != id {
      assert Ids(sliders)[i] == sliders[i].id;
    }
  }
}
