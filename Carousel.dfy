/**
 * The navigation script that the exported page embeds (`initializeSlider` in
 * src/components/ExportButton.tsx).  One index over `n` slides is moved by the
 * buttons, the arrow, Home and End keys, the indicator dots and horizontal
 * swipes; after every move `updateSlides` redraws the slide classes, the
 * indicator dots, the counter and the title overlay.
 */
module Carousel {
  import opened JsStrings

  /** The position class of a slide: none (as first written into the page), active, prev or next. */
  datatype SlideClass = NoClass | Active | Prev | Next

  /** What a finished touch does to the index. */
  datatype Move = Stay | Back | Forward

  /** The minimal horizontal distance, in CSS pixels, of a swipe. */
  const SwipeThreshold: real := 100.0

  /** `(currentIndex + 1) % slides.length` */
  function NextIndex(c: int, n: nat): int
    requires n > 0
  {
    (c + 1) % n
  }

  /** `(currentIndex - 1 + slides.length) % slides.length` */
  function PrevIndex(c: int, n: nat): int
    requires n > 0
  {
    (c - 1 + n) % n
  }

  lemma {:induction false} MulAtLeast(a: int, n: int)
    requires a >= 1 && n >= 0
    ensures a * n >= n
  {
    if a > 1 {
      MulAtLeast(a - 1, n);
      assert a * n == (a - 1) * n + n;
    }
  }

  /** The remainder is determined by any quotient-remainder split. */
  lemma ModUnique(x: int, q: int, r: int, n: int)
    requires 0 < n && 0 <= r < n && x == q * n + r
    ensures x % n == r
  {
    var q', r' := x / n, x % n;
    assert (q - q') * n == r' - r;
    if q > q' { MulAtLeast(q - q', n); }
    if q < q' { MulAtLeast(q' - q, n); }
  }

  /** One step forward or back wraps around at the ends and otherwise moves by one. */
  lemma StepValues(c: int, n: nat)
    requires 0 <= c < n
    ensures NextIndex(c, n) == if c + 1 == n then 0 else c + 1
    ensures PrevIndex(c, n) == if c == 0 then n - 1 else c - 1
  {
    if c + 1 == n { ModUnique(c + 1, 1, 0, n); } else { ModUnique(c + 1, 0, c + 1, n); }
    if c == 0 { ModUnique(c - 1 + n, 0, n - 1, n); } else { ModUnique(c - 1 + n, 1, c - 1, n); }
  }

  /** Both moves keep the index among the slides, and each one undoes the other. */
  lemma NextPrevInverse(c: int, n: nat)
    requires 0 <= c < n
    ensures 0 <= NextIndex(c, n) < n && 0 <= PrevIndex(c, n) < n
    ensures PrevIndex(NextIndex(c, n), n) == c
    ensures NextIndex(PrevIndex(c, n), n) == c
  {
    StepValues(c, n);
    StepValues(NextIndex(c, n), n);
    StepValues(PrevIndex(c, n), n);
  }

  /** The index after `k` presses of "next". */
  function NextTimes(c: int, n: nat, k: nat): int
    requires n > 0
  {
    if k == 0 then c else NextIndex(NextTimes(c, n, k - 1), n)
  }

  /** Stepping forward from a remainder is stepping forward from the number itself. */
  lemma NextOfRemainder(a: int, n: nat)
    requires a >= 0 && n > 0
    ensures NextIndex(a % n, n) == (a + 1) % n
  {
    var q, m := a / n, a % n;
    assert a == q * n + m;
    StepValues(m, n);
    if m + 1 < n {
      ModUnique(a + 1, q, m + 1, n);
    } else {
      assert a + 1 == (q + 1) * n + 0;
      ModUnique(a + 1, q + 1, 0, n);
    }
  }

  /** `k` presses of "next" advance the index by `k` around the circle. */
  lemma {:induction false} NextTimesRotates(c: int, n: nat, k: nat)
    requires 0 <= c < n
    ensures NextTimes(c, n, k) == (c + k) % n
  {
    if k == 0 {
      ModUnique(c, 0, c, n);
    } else {
      NextTimesRotates(c, n, k - 1);
      NextOfRemainder(c + k - 1, n);
    }
  }

  /** A full round of `n` presses of "next" comes back to the same slide. */
  lemma FullRound(c: int, n: nat)
    requires 0 <= c < n
    ensures NextTimes(c, n, n) == c
  {
    NextTimesRotates(c, n, n);
    ModUnique(c + n, 1, c, n);
  }

  /** The class `updateSlides` gives slide `i` when the index is `c`. */
  function ClassFor(i: int, c: int, n: nat): SlideClass
    requires n > 0
  {
    if i == c then Active
    else if i == PrevIndex(c, n) then Prev
    else Next
  }

  /**
   * Only the current slide is active; the slide before it (cyclically) is prev,
   * unless there is only one slide; every other slide is next; no slide is left
   * without a class.
   */
  lemma ClassForSpec(i: int, c: int, n: nat)
    requires 0 <= c < n && 0 <= i < n
    ensures ClassFor(i, c, n) != NoClass
    ensures ClassFor(i, c, n) == Active <==> i == c
    ensures ClassFor(i, c, n) == Prev <==> n >= 2 && i == PrevIndex(c, n)
    ensures ClassFor(i, c, n) == Next <==> i != c && i != PrevIndex(c, n)
  {
    StepValues(c, n);
  }

  /** Counted over all slides: exactly one is active, and one is prev when there are two or more. */
  lemma ClassCounts(c: int, n: nat)
    requires 0 <= c < n
    ensures (set i | 0 <= i < n && ClassFor(i, c, n) == Active) == {c}
    ensures (set i | 0 <= i < n && ClassFor(i, c, n) == Prev) == if n >= 2 then {PrevIndex(c, n)} else {}
  {
    NextPrevInverse(c, n);
    forall i | 0 <= i < n {
      ClassForSpec(i, c, n);
    }
  }

  /** The title shown for the slide at `index`: its own title, or `Slide <index + 1>` when that is empty. */
  function DisplayTitle(title: string, index: nat): (shown: string)
    ensures shown != []
    ensures title != [] ==> shown == title
    ensures title == [] ==> |shown| > 6 && shown[..6] == "Slide " && shown[6..] == Decimal(index + 1)
  {
    if title != [] then title else "Slide " + Decimal(index + 1)
  }

  function Abs(x: real): real {
    if x < 0.0 then -x else x
  }

  /** What the `touchend` handler does for the distance `(distX, distY)` since `touchstart`. */
  function SwipeMove(distX: real, distY: real): (m: Move)
    ensures m != Stay <==> Abs(distX) > Abs(distY) && Abs(distX) > SwipeThreshold
    ensures m == Back <==> Abs(distX) > Abs(distY) && Abs(distX) > SwipeThreshold && distX > 0.0
  {
    if Abs(distX) > Abs(distY) && Abs(distX) > SwipeThreshold then
      if distX > 0.0 then Back else Forward
    else Stay
  }

  /** A swipe in the mirrored direction makes the opposite move. */
  lemma SwipeMirror(distX: real, distY: real)
    ensures SwipeMove(-distX, distY) == match SwipeMove(distX, distY)
      case Stay => Stay
      case Back => Forward
      case Forward => Back
  {
  }

  /** The index after a move. */
  function MoveIndex(m: Move, c: int, n: nat): int
    requires n > 0
  {
    match m
    case Stay => c
    case Back => PrevIndex(c, n)
    case Forward => NextIndex(c, n)
  }

  /** The index the `keydown` handler moves to for `key`; other keys leave it. */
  function KeyIndex(key: string, c: int, n: nat): int
    requires n > 0
  {
    if key == "ArrowLeft" then PrevIndex(c, n)
    else if key == "ArrowRight" then NextIndex(c, n)
    else if key == "Home" then 0
    else if key == "End" then n - 1
    else c
  }

  /** The live slider: the index, the page elements it redraws, and the touch origin. */
  class Slider {
    /** `slides.length`, which is also the number of indicator dots and of titles. */
    const n: nat
    /** `slideData[k].title` */
    const titles: seq<string>
    /** The position class of each `.content-slide` element. */
    const slides: array<SlideClass>
    /** Whether each `.indicator-dot` element has the class `active`. */
    const indicators: array<bool>

    var currentIndex: int
    /** `currentSlideSpan.textContent` */
    var counterText: string
    /** `slideTitleOverlay.textContent` */
    var overlayText: string
    var prevDisabled: bool
    var nextDisabled: bool
    var startX: real
    var startY: real

    /** The sizes agree and the index names a slide. */
    ghost predicate Shape()
      reads this
    {
      n >= 1 && |titles| == n && slides.Length == n && indicators.Length == n && 0 <= currentIndex < n
    }

    /** The page shows the current index: what `updateSlides` leaves behind. */
    ghost predicate Valid()
      reads this, slides, indicators
    {
      && Shape()
      && (forall i :: 0 <= i < n ==> slides[i] == ClassFor(i, currentIndex, n))
      && (forall i :: 0 <= i < n ==> indicators[i] == (i == currentIndex))
      && counterText == Decimal(currentIndex + 1)
      && overlayText == DisplayTitle(titles[currentIndex], currentIndex)
      && !prevDisabled && !nextDisabled
    }

    /**
     * `initializeSlider` over a page made for `titles`: the slides and dots
     * start with the classes the page was written with (slide 0 active, slide 1
     * next, dot 0 active), the index is 0, and the first `updateSlides` runs.
     */
    constructor (pageTitles: seq<string>)
      requires |pageTitles| >= 1
      ensures Valid() && fresh(slides) && fresh(indicators)
      ensures n == |pageTitles| && titles == pageTitles && currentIndex == 0
      ensures startX == 0.0 && startY == 0.0
    {
      n := |pageTitles|;
      titles := pageTitles;
      slides := new SlideClass[|pageTitles|](i => if i == 0 then Active else if i == 1 then Next else NoClass);
      indicators := new bool[|pageTitles|](i => i == 0);
      currentIndex := 0;
      counterText := "1";
      overlayText := DisplayTitle(pageTitles[0], 0);
      prevDisabled, nextDisabled := false, false;
      startX, startY := 0.0, 0.0;
      new;
      UpdateSlides();
    }

    /** `updateSlides`: redraws every slide class, every dot, the counter and the title overlay. */
    method UpdateSlides()
      requires Shape()
      modifies this, slides, indicators
      ensures Valid()
      ensures currentIndex == old(currentIndex) && startX == old(startX) && startY == old(startY)
    {
      for i := 0 to slides.Length
        modifies slides
        invariant forall j :: 0 <= j < i ==> slides[j] == ClassFor(j, currentIndex, n)
      {
        if i == currentIndex {
          slides[i] := Active;
        } else if i == (currentIndex - 1 + slides.Length) % slides.Length {
          slides[i] := Prev;
        } else {
          slides[i] := Next;
        }
      }
      for i := 0 to indicators.Length
        modifies indicators
        invariant forall j :: 0 <= j < i ==> indicators[j] == (j == currentIndex)
      {
        indicators[i] := i == currentIndex;
      }
      counterText := Decimal(currentIndex + 1);
      overlayText := DisplayTitle(titles[currentIndex], currentIndex);
      prevDisabled := false;
      nextDisabled := false;
    }

    /** `goToSlide(index)`: jumps when `index` names a slide, and otherwise does nothing. */
    method GoToSlide(index: int)
      requires Valid()
      modifies this, slides, indicators
      ensures Valid()
      ensures currentIndex == if 0 <= index < n then index else old(currentIndex)
      ensures !(0 <= index < n) ==> unchanged(this, slides, indicators)
      ensures startX == old(startX) && startY == old(startY)
    {
      if index >= 0 && index < slides.Length {
        currentIndex := index;
        UpdateSlides();
      }
    }

    /** The "previous" button. */
    method PrevClick()
      requires Valid()
      modifies this, slides, indicators
      ensures Valid() && currentIndex == PrevIndex(old(currentIndex), n)
      ensures startX == old(startX) && startY == old(startY)
    {
      currentIndex := (currentIndex - 1 + slides.Length) % slides.Length;
      UpdateSlides();
    }

    /** The "next" button. */
    method NextClick()
      requires Valid()
      modifies this, slides, indicators
      ensures Valid() && currentIndex == NextIndex(old(currentIndex), n)
      ensures startX == old(startX) && startY == old(startY)
    {
      currentIndex := (currentIndex + 1) % slides.Length;
      UpdateSlides();
    }

    /** The `keydown` handler: arrows step, Home and End jump to the ends, any other key is ignored. */
    method KeyDown(key: string)
      requires Valid()
      modifies this, slides, indicators
      ensures Valid() && currentIndex == KeyIndex(key, old(currentIndex), n)
      ensures key !in {"ArrowLeft", "ArrowRight", "Home", "End"} ==> unchanged(this, slides, indicators)
      ensures startX == old(startX) && startY == old(startY)
    {
      if key == "ArrowLeft" {
        currentIndex := (currentIndex - 1 + slides.Length) % slides.Length;
        UpdateSlides();
      } else if key == "ArrowRight" {
        currentIndex := (currentIndex + 1) % slides.Length;
        UpdateSlides();
      } else if key == "Home" {
        GoToSlide(0);
      } else if key == "End" {
        GoToSlide(slides.Length - 1);
      }
    }

    /** The `touchstart` handler records where the touch began. */
    method TouchStart(x: real, y: real)
      modifies this`startX, this`startY
      ensures startX == x && startY == y
    {
      startX := x;
      startY := y;
    }

    /**
     * The `touchend` handler: a mostly horizontal swipe longer than the
     * threshold steps back (rightwards) or forward (leftwards); any other touch
     * changes nothing.
     */
    method TouchEnd(x: real, y: real)
      requires Valid()
      modifies this, slides, indicators
      ensures Valid()
      ensures currentIndex == MoveIndex(SwipeMove(x - old(startX), y - old(startY)), old(currentIndex), n)
      ensures SwipeMove(x - old(startX), y - old(startY)) == Stay ==> unchanged(this, slides, indicators)
      ensures startX == old(startX) && startY == old(startY)
    {
      var distX := x - startX;
      var distY := y - startY;
      if Abs(distX) > Abs(distY) && Abs(distX) > SwipeThreshold {
        if distX > 0.0 {
          currentIndex := (currentIndex - 1 + slides.Length) % slides.Length;
        } else {
          currentIndex := (currentIndex + 1) % slides.Length;
        }
        UpdateSlides();
      }
    }
  }

  /** Every event keeps the index among the slides: the moves the handlers make stay in range. */
  lemma EventIndicesInRange(key: string, m: Move, c: int, n: nat)
    requires 0 <= c < n
    ensures 0 <= KeyIndex(key, c, n) < n
    ensures 0 <= MoveIndex(m, c, n) < n
  {
    NextPrevInverse(c, n);
  }
}
