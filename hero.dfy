/** The fading hero carousel: three full-screen slides, one shown at a time,
    with previous/next buttons, one dot per slide and an interval that calls
    `nextSlide`. */
module Hero {
  import opened JsNumber

  datatype HeroSlide = HeroSlide(id: int, image: string, title: string, textBoxContent: string)

  const Slides: seq<HeroSlide> := [
    HeroSlide(1, "/images/hero-1.jpg", "Special Dish of the Day",
      "Chefs choice for the day. Locally sourced when possible, thoughtfully seasoned, and plated with care. Ask for todays selection."),
    HeroSlide(2, "/images/hero-2.jpg", "Fresh & Organic",
      "Thoughtfully sourced, minimally processed, and full of life. Every plate centers on organic ingredients and straightforward technique."),
    HeroSlide(3, "/images/hero-3.jpg", "Cozy Atmosphere",
      "Warm lighting, natural textures, and low music create an intimate setting for unhurried meals and good conversation.")
  ]

  /** The update `nextSlide` applies, `(prev + 1) % slides.length`: from an
      in-range slide, the following one, with the last wrapping to the first. */
  function NextOf(prev: int, len: int): (r: int)
    requires len >= 1
    ensures 0 <= prev < len ==> 0 <= r < len && r == (if prev == len - 1 then 0 else prev + 1)
  {
    ModSmall(prev + 1, len);
    Rem(prev + 1, len)
  }

  /** The update `prevSlide` applies, `(prev - 1 + slides.length) % slides.length`:
      from an in-range slide, the preceding one, with the first wrapping to the last. */
  function PrevOf(prev: int, len: int): (r: int)
    requires len >= 1
    ensures 0 <= prev < len ==> 0 <= r < len && r == (if prev == 0 then len - 1 else prev - 1)
  {
    ModSmall(prev - 1 + len, len);
    assert 0 < prev < len ==> Rem(prev - 1 + len, len) == prev - 1 by {
      if 0 < prev < len {
        ModUnique(prev - 1 + len, len, 1, prev - 1);
      }
    }
    Rem(prev - 1 + len, len)
  }

  /** Next and previous undo each other on in-range slides. */
  lemma NextPrevInverse(s: int, len: int)
    requires len >= 1 && 0 <= s < len
    ensures PrevOf(NextOf(s, len), len) == s
    ensures NextOf(PrevOf(s, len), len) == s
  {
  }

  /** The slide after `k` calls of `nextSlide` starting from `s`. */
  function NextTimes(s: int, k: nat, len: int): int
    requires len >= 1
    decreases k
  {
    if k == 0 then s else NextOf(NextTimes(s, k - 1, len), len)
  }

  /** `k` calls of `nextSlide` advance the slide by `k`, cyclically. */
  lemma {:induction false} NextTimesShifts(s: int, k: nat, len: int)
    requires len >= 1 && 0 <= s < len
    ensures NextTimes(s, k, len) == (s + k) % len
    decreases k
  {
    if k == 0 {
      ModSmall(s, len);
    } else {
      NextTimesShifts(s, k - 1, len);
      var p := (s + k - 1) % len;
      assert NextTimes(s, k, len) == NextOf(p, len);
      ModSmall(p + 1, len);
      assert NextOf(p, len) == (p + 1) % len;
      ModSucc(s + k - 1, len);
    }
  }

  /** After `len` calls of `nextSlide` the carousel is back where it started. */
  lemma {:induction false} FullCycle(s: int, len: int)
    requires len >= 1 && 0 <= s < len
    ensures NextTimes(s, len, len) == s
  {
    NextTimesShifts(s, len, len);
    ModUnique(s + len, len, 1, s);
  }

  /** Slide `k` (and dot `k`) is drawn active: `index === currentSlide`. */
  predicate IsShown(k: int, current: int) {
    k == current
  }

  /** The slides drawn fully opaque. */
  function ShownSlides(current: int, len: int): set<int> {
    set k | 0 <= k < len && IsShown(k, current)
  }

  /** Exactly one slide (and likewise one dot) is active: the current one. */
  lemma {:induction false} ExactlyOneShown(current: int, len: int)
    requires 0 <= current < len
    ensures ShownSlides(current, len) == {current}
    ensures |ShownSlides(current, len)| == 1
  {
    assert current in ShownSlides(current, len);
    assert forall k :: k in ShownSlides(current, len) ==> k == current;
  }

  class HeroCarousel {
    const slides: seq<HeroSlide> := Slides
    var currentSlide: int

    ghost predicate Valid()
      reads this
    {
      0 <= currentSlide < |slides|
    }

    constructor ()
      ensures Valid()
      ensures currentSlide == 0
    {
      currentSlide := 0;
    }

    /** The next button, and every firing of the interval. */
    method NextSlide()
      modifies this
      ensures currentSlide == NextOf(old(currentSlide), |slides|)
      ensures old(Valid()) ==> Valid()
    {
      currentSlide := Rem(currentSlide + 1, |slides|);
    }

    /** The previous button. */
    method PrevSlide()
      modifies this
      ensures currentSlide == PrevOf(old(currentSlide), |slides|)
      ensures old(Valid()) ==> Valid()
    {
      currentSlide := Rem(currentSlide - 1 + |slides|, |slides|);
    }

    /** `goToSlide(index)`: sets the slide as given, checked by nobody. */
    method GoToSlide(index: int)
      modifies this
      ensures currentSlide == index
    {
      currentSlide := index;
    }

    /** The dot of slide `i`: the dots exist only for in-range indices. */
    method ClickDot(i: int)
      requires 0 <= i < |slides|
      modifies this
      ensures Valid() && currentSlide == i
    {
      GoToSlide(i);
    }

    /** The indices shown (and whose dot is highlighted). */
    function Shown(): (r: set<int>)
      reads this
      ensures Valid() ==> r == {currentSlide}
    {
      assert 0 <= currentSlide < |slides| ==> ShownSlides(currentSlide, |slides|) == {currentSlide} by {
        if 0 <= currentSlide < |slides| {
          ExactlyOneShown(currentSlide, |slides|);
        }
      }
      ShownSlides(currentSlide, |slides|)
    }
  }
}
