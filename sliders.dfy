/** The two timed sliders of the landing page (static/js/main4.js): the hero
    carousel, which shows one slide at a time and moves round all of them,
    and the product slider, which shifts a track of cards so that three stay
    in view and jumps back to the start after the last full view.

    Each timer callback is a `Tick` method; the schedule itself
    (`setInterval`) is not modelled. */
module Sliders {
  import opened Wrappers

  // ---------------------------------------------------------------------
  // Hero carousel

  /** The slide after `current` among `n`, wrapping from the last to the first. */
  function NextHero(current: nat, n: nat): (next: nat)
    requires current < n
    ensures next < n
    ensures next == 0 <==> current == n - 1
    ensures next != 0 ==> next == current + 1
  {
    (current + 1) % n
  }

  /** The slide shown after `k` ticks, starting from the first. */
  function HeroAfter(n: nat, k: nat): (i: nat)
    requires n > 0
    ensures i < n
  {
    if k == 0 then 0 else NextHero(HeroAfter(n, k - 1), n)
  }

  /** Exactly the slide `current` carries the "active" class. */
  ghost predicate OnlyActive(active: seq<bool>, current: nat) {
    forall i :: 0 <= i < |active| ==> (active[i] <==> i == current)
  }

  class HeroCarousel {
    const slideCount: nat
    var current: nat
    /** The "active" class of each slide. */
    var active: seq<bool>

    ghost predicate Valid()
      reads this
    {
      && slideCount == |active| > 0
      && current < slideCount
      && active[current]
    }

    /** Set-up: the first slide is made active. Slides may already carry the
        class from the markup. */
    constructor(initiallyActive: seq<bool>)
      requires |initiallyActive| > 0
      ensures Valid()
      ensures slideCount == |initiallyActive| && current == 0
      ensures active == initiallyActive[0 := true]
    {
      slideCount := |initiallyActive|;
      current := 0;
      active := initiallyActive[0 := true];
    }

    /** One tick: the current slide loses the class, the index moves on by
        one modulo the slide count, and the new current slide gains it. */
    method Tick()
      requires Valid()
      modifies this
      ensures Valid()
      ensures current == NextHero(old(current), slideCount)
      ensures active == old(active)[old(current) := false][current := true]
      ensures OnlyActive(old(active), old(current)) ==> OnlyActive(active, current)
    {
      active := active[current := false];
      current := (current + 1) % slideCount;
      active := active[current := true];
    }
  }

  /** The carousel shows the slides in order: after `k` ticks, with `k`
      smaller than the slide count, slide `k` is shown. */
  lemma {:induction false} HeroVisitsInOrder(n: nat, k: nat)
    requires k < n
    ensures HeroAfter(n, k) == k
  {
    if k > 0 {
      HeroVisitsInOrder(n, k - 1);
    }
  }

  /** After one full round the carousel is back at the first slide, and
      from then on it repeats itself with period `n`. */
  lemma {:induction false} HeroPeriodic(n: nat, k: nat)
    requires n > 0
    ensures HeroAfter(n, k + n) == HeroAfter(n, k)
  {
    if k == 0 {
      HeroVisitsInOrder(n, n - 1);
    } else {
      HeroPeriodic(n, k - 1);
    }
  }

  // ---------------------------------------------------------------------
  // Product slider

  /** The index after a tick: one more, or back to 0 once it would pass the
      last position from which three cards are in view. */
  function NextSlide(index: nat, count: nat): (next: nat)
    ensures next == 0 || next + 3 <= count
    ensures next != 0 ==> next == index + 1
    ensures index + 4 <= count ==> next == index + 1
  {
    if index + 1 > count - 3 then 0 else index + 1
  }

  /** The index after `k` ticks, starting from 0. */
  function SlideAfter(count: nat, k: nat): nat {
    if k == 0 then 0 else NextSlide(SlideAfter(count, k - 1), count)
  }

  class ProductSlider {
    const slideCount: nat
    /** Width of the first card plus the 16-pixel gap. */
    const slideWidth: int
    var index: nat
    /** The track's leftward shift in pixels, unset before the first tick. */
    var shift: Option<int>

    ghost predicate Valid()
      reads this
    {
      index == 0 || index + 3 <= slideCount
    }

    /** Set-up over a track of `slideCount` cards whose first card is
        `firstWidth` pixels wide. Reading the first card's width throws on
        an empty track, so the slider only exists over a non-empty one. */
    constructor(slideCount: nat, firstWidth: nat)
      requires slideCount >= 1
      ensures Valid()
      ensures this.slideCount == slideCount && slideWidth == firstWidth + 16
      ensures index == 0 && shift == None
    {
      this.slideCount := slideCount;
      slideWidth := firstWidth + 16;
      index := 0;
      shift := None;
    }

    /** One tick: advance the index, wrapping to 0, and shift the track by
        that many card widths. */
    method Tick()
      requires Valid()
      modifies this
      ensures Valid()
      ensures index == NextSlide(old(index), slideCount)
      ensures shift == Some(index * slideWidth)
    {
      index := index + 1;
      if index > slideCount - 3 {
        index := 0;
      }
      shift := Some(index * slideWidth);
    }
  }

  /** With at least three cards, the slider steps through the positions
      0, 1, …, count − 3 in order … */
  lemma {:induction false} SlideVisitsInOrder(count: nat, k: nat)
    requires k + 3 <= count
    ensures SlideAfter(count, k) == k
  {
    if k > 0 {
      SlideVisitsInOrder(count, k - 1);
    }
  }

  /** … and one tick after the last of them is back at 0, so it repeats
      with period count − 2. */
  lemma {:induction false} SlidePeriodic(count: nat, k: nat)
    requires count >= 3
    ensures SlideAfter(count, k + (count - 2)) == SlideAfter(count, k)
  {
    if k == 0 {
      SlideVisitsInOrder(count, count - 3);
    } else {
      SlidePeriodic(count, k - 1);
    }
  }

  /** With three cards or fewer every card is already in view and the
      slider never leaves position 0. */
  lemma {:induction false} FewSlidesStayPut(count: nat, k: nat)
    requires count <= 3
    ensures SlideAfter(count, k) == 0
  {
    if k > 0 {
      FewSlidesStayPut(count, k - 1);
    }
  }
}
