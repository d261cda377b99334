/** The looped gallery carousel. The N slides are rendered as a strip of three
    copies; `index` points into that strip of length 3N. Clicks, timer ticks and
    the boundary snap move the index, and every settled index is followed by a
    recomputation of the pixel offset that centres the active card. */
module Gallery {
  import opened Wrappers
  import opened JsNumber

  datatype Slide = Slide(id: int, image: string, title: string)

  /** The slides the gallery shows. */
  const Slides: seq<Slide> := [
    Slide(1, "/images/dining.jpg", "Dining room"),
    Slide(2, "/images/coffee.jpg", "Coffee bar"),
    Slide(3, "/images/chef.jpg", "Chef table"),
    Slide(4, "/images/bar.jpg", "Bar counter"),
    Slide(5, "/images/table.jpg", "Friends at table")
  ]

  /** The logical slide the carousel starts on (in the middle copy). */
  const InitialLogical: int := 2

  /** The rendered strip: the slides three times over. */
  function LoopSlides(slides: seq<Slide>): (strip: seq<Slide>)
    ensures |strip| == 3 * |slides|
  {
    slides + slides + slides
  }

  /** Strip position `i` shows slide `i mod N`. */
  lemma {:induction false} LoopSlideAt(slides: seq<Slide>, i: int)
    requires |slides| >= 1 && 0 <= i < 3 * |slides|
    ensures LoopSlides(slides)[i] == slides[i % |slides|]
  {
    var n := |slides|;
    var copy := if i < n then 0 else if i < 2 * n then 1 else 2;
    ModUnique(i, n, copy, i - copy * n);
  }

  // ---------------------------------------------------------------------------
  // Index arithmetic
  // ---------------------------------------------------------------------------

  /** `logicalActive`: the slide of the original list that strip position
      `index` shows, computed with JavaScript's `%` as `((index % N) + N) % N`. */
  function Logical(index: int, n: int): (r: int)
    requires n >= 1
    ensures 0 <= r < n
    ensures r == index % n
  {
    NormalizedRem(index, n);
    Rem(Rem(index, n) + n, n)
  }

  /** One step forward in the strip is one slide forward, cyclically. */
  lemma {:induction false} LogicalSucc(index: int, n: int)
    requires n >= 1
    ensures Logical(index + 1, n) == (Logical(index, n) + 1) % n
  {
    var q := index / n;
    assert index == q * n + index % n;
    ModUnique((index + 1) - (index % n + 1), n, q, 0);
    CongruentMod(index + 1, index % n + 1, n);
  }

  /** The band within one position of either end of the strip: the two first
      and the two last positions, and everything outside the strip. */
  function InBand(index: int, n: int): (r: bool)
    ensures r <==> !(2 <= index <= 3 * n - 3)
  {
    var leftBound := 0;
    var rightBound := 3 * n - 1;
    index <= leftBound + 1 || index >= rightBound - 1
  }

  /** The index the boundary snap jumps to: the same slide in the middle copy. */
  function Normalize(index: int, n: int): (r: int)
    requires n >= 1
    ensures n <= r < 2 * n
    ensures Logical(r, n) == Logical(index, n)
    ensures n >= 2 ==> !InBand(r, n)
  {
    var l := Logical(index, n);
    ModUnique(n + l, n, 1, l);
    n + l
  }

  /** An index the snap effect leaves where it is: inside the strip, and outside
      the band unless the snap would not move it (only possible with one slide). */
  predicate Settled(index: int, n: int)
    requires n >= 1
  {
    0 <= index < 3 * n && (InBand(index, n) ==> index == Normalize(index, n))
  }

  /** With at least two slides a settled index keeps one position away from both ends. */
  lemma SettledAwayFromEnds(index: int, n: int)
    requires n >= 2 && Settled(index, n)
    ensures 2 <= index <= 3 * n - 3
  {
  }

  /** The index after one run of the snap effect on `index`. */
  function AfterEffect(index: int, n: int): (r: int)
    requires n >= 1
    ensures Settled(r, n)
    ensures Logical(r, n) == Logical(index, n)
    ensures !InBand(index, n) ==> r == index
  {
    if InBand(index, n) then Normalize(index, n) else index
  }

  /** Where `setIndex(v)` comes to rest, starting from `current`: React skips
      the update when the value is unchanged; otherwise the effect runs. */
  function SettleIndex(current: int, v: int, n: int): (r: int)
    requires n >= 1
    ensures Settled(current, n) ==> Settled(r, n)
    ensures Logical(r, n) == Logical(v, n)
  {
    if v == current then current else AfterEffect(v, n)
  }

  // ---------------------------------------------------------------------------
  // Choosing the nearest copy of a slide
  // ---------------------------------------------------------------------------

  /** The three strip positions that show logical slide `t`. */
  function Candidates(t: int, n: int): (cs: seq<int>)
    ensures |cs| == 3
  {
    [t, t + n, t + 2 * n]
  }

  /** `cs[k]` is at least as close to `from` as every candidate and strictly
      closer than every earlier one: the first of the closest. */
  predicate NearestAt(cs: seq<int>, from: int, k: int) {
    0 <= k < |cs| &&
    (forall j :: 0 <= j < |cs| ==> Abs(cs[k] - from) <= Abs(cs[j] - from)) &&
    (forall j :: 0 <= j < k ==> Abs(cs[j] - from) > Abs(cs[k] - from))
  }

  /** The loop of `goToLogical`: keep the first candidate with the smallest
      distance, replacing it only on a strictly smaller one. */
  method Nearest(candidates: seq<int>, index: int) returns (best: int, bestDist: int)
    requires |candidates| >= 1
    ensures exists k :: NearestAt(candidates, index, k) && best == candidates[k]
    ensures bestDist == Abs(best - index)
  {
    best := candidates[0];
    bestDist := Abs(candidates[0] - index);
    ghost var bestK := 0;
    for k := 1 to |candidates|
      invariant 0 <= bestK < k
      invariant best == candidates[bestK] && bestDist == Abs(best - index)
      invariant forall j :: 0 <= j < k ==> bestDist <= Abs(candidates[j] - index)
      invariant forall j :: 0 <= j < bestK ==> Abs(candidates[j] - index) > bestDist
    {
      var d := Abs(candidates[k] - index);
      if d < bestDist {
        best := candidates[k];
        bestDist := d;
        bestK := k;
      }
    }
    assert NearestAt(candidates, index, bestK);
  }

  /** The copy `goToLogical` picks for slide `t` from `from`, written out for
      the three candidates: the first of the closest. */
  function NearestCandidate(t: int, n: int, from: int): (c: int)
    ensures exists k :: NearestAt(Candidates(t, n), from, k) && c == Candidates(t, n)[k]
  {
    var cs := Candidates(t, n);
    var k := FirstClosest(Abs(cs[0] - from), Abs(cs[1] - from), Abs(cs[2] - from));
    FirstClosestIsNearest(cs, from, k);
    cs[k]
  }

  /** Which of three distances is the first of the smallest. */
  function FirstClosest(d0: int, d1: int, d2: int): (k: int)
    ensures 0 <= k < 3
    ensures k == 0 ==> d0 <= d1 && d0 <= d2
    ensures k == 1 ==> d1 < d0 && d1 <= d2
    ensures k == 2 ==> d2 < d0 && d2 < d1
  {
    if d1 < d0 then (if d2 < d1 then 2 else 1) else (if d2 < d0 then 2 else 0)
  }

  lemma FirstClosestIsNearest(cs: seq<int>, from: int, k: int)
    requires |cs| == 3 && k == FirstClosest(Abs(cs[0] - from), Abs(cs[1] - from), Abs(cs[2] - from))
    ensures NearestAt(cs, from, k)
  {
    var d := Abs(cs[k] - from);
    forall j | 0 <= j < 3
      ensures d <= Abs(cs[j] - from)
    {
      assert j == 0 || j == 1 || j == 2;
    }
  }

  /** Any first of the closest is the copy `NearestCandidate` picks, and for
      `0 <= t < N` it shows slide `t`. */
  lemma NearestIsCandidate(t: int, n: int, from: int, best: int)
    requires n >= 1
    requires exists k :: NearestAt(Candidates(t, n), from, k) && best == Candidates(t, n)[k]
    ensures best == NearestCandidate(t, n, from)
    ensures 0 <= t < n ==> Logical(best, n) == t
  {
    var k :| NearestAt(Candidates(t, n), from, k) && best == Candidates(t, n)[k];
    var k' :| NearestAt(Candidates(t, n), from, k') && NearestCandidate(t, n, from) == Candidates(t, n)[k'];
    NearestIsUnique(Candidates(t, n), from, k, k');
    if 0 <= t < n {
      CandidateShowsTarget(t, n, k);
    }
  }

  /** The choice is determined: only one position is the first of the closest. */
  lemma NearestIsUnique(cs: seq<int>, from: int, k1: int, k2: int)
    requires NearestAt(cs, from, k1) && NearestAt(cs, from, k2)
    ensures k1 == k2
  {
    var d1, d2 := Abs(cs[k1] - from), Abs(cs[k2] - from);
    assert d1 == d2;
    assert k1 < k2 ==> d1 > d2;
    assert k2 < k1 ==> d2 > d1;
  }

  /** Every candidate shows the requested slide. */
  lemma {:induction false} CandidateShowsTarget(t: int, n: int, k: int)
    requires n >= 1 && 0 <= t < n && 0 <= k < 3
    ensures Logical(Candidates(t, n)[k], n) == t
  {
    ModUnique(t + k * n, n, k, t);
  }

  /** From anywhere in the strip the chosen copy is less than N positions away. */
  lemma {:induction false} NearestMoveIsShort(t: int, n: int, from: int, k: int)
    requires n >= 1 && 0 <= t < n && 0 <= from < 3 * n
    requires NearestAt(Candidates(t, n), from, k)
    ensures Abs(Candidates(t, n)[k] - from) < n
  {
    var cs := Candidates(t, n);
    var j := if from < t + n then 0 else if from < t + 2 * n then 1 else 2;
    assert Abs(cs[j] - from) < n;
  }

  // ---------------------------------------------------------------------------
  // Offset
  // ---------------------------------------------------------------------------

  /** The measured track: its gap and the width of its first card, if any. */
  datatype Track = Track(gap: real, firstCardWidth: Option<real>)

  /** What `recalcOffset` can measure: the viewport's width (if the container is
      mounted) and the track (if mounted). */
  datatype Layout = Layout(containerWidth: Option<real>, track: Option<Track>)

  predicate Measurable(layout: Layout) {
    layout.containerWidth.Some? && layout.track.Some? && layout.track.value.firstCardWidth.Some?
  }

  /** Distance from the start of the strip to the left edge of card `i`. */
  function CardStart(i: int, cardWidth: real, gap: real): real {
    (cardWidth + gap) * (i as real)
  }

  /** The offset `recalcOffset` computes for `index`, or None when the container,
      the track or its first card is missing. Shifting the strip left by it puts
      the centre of card `index` at the centre of the viewport. */
  function MeasuredOffset(layout: Layout, index: int): (r: Option<real>)
    ensures r.Some? <==> Measurable(layout)
    ensures r.Some? ==>
      var cardWidth := layout.track.value.firstCardWidth.value;
      CardStart(index, cardWidth, layout.track.value.gap) + cardWidth / 2.0 - r.value
        == layout.containerWidth.value / 2.0
  {
    match layout.containerWidth
    case None => None
    case Some(viewportWidth) =>
      match layout.track
      case None => None
      case Some(track) =>
        match track.firstCardWidth
        case None => None
        case Some(cardWidth) =>
          var startToActive := (cardWidth + track.gap) * (index as real);
          var centerOffset := (viewportWidth - cardWidth) / 2.0;
          Some(startToActive - centerOffset)
  }

  /** The offset after `recalcOffset`: the measured one, or the previous one kept. */
  function OffsetOr(layout: Layout, index: int, previous: real): real {
    match MeasuredOffset(layout, index)
    case Some(o) => o
    case None => previous
  }

  /** Five slides, index 8, cards 300 wide with a gap of 20 in a 980-wide viewport. */
  lemma OffsetExample()
    ensures MeasuredOffset(Layout(Some(980.0), Some(Track(20.0, Some(300.0)))), 8) == Some(2220.0)
  {
  }

  /** The translation applied to the strip, `Math.max(0, offset)`: never
      negative, never less than the offset, and one of the two. */
  function Translation(offset: real): (r: real)
    ensures r >= 0.0 && r >= offset
    ensures r == 0.0 || r == offset
  {
    if offset > 0.0 then offset else 0.0
  }

  // ---------------------------------------------------------------------------
  // The component state
  // ---------------------------------------------------------------------------

  class Carousel {
    const slides: seq<Slide>
    const n: int
    var index: int
    var offset: real
    var paused: bool
    var transitionOn: bool
    /** Whether an auto-advance interval is installed. */
    var timerRunning: bool
    /** Whether the animation-frame callback that re-enables the transition is pending. */
    var reenablePending: bool

    ghost predicate Valid()
      reads this
    {
      n == |slides| && n >= 1 &&
      Settled(index, n) &&
      (timerRunning ==> !paused) &&
      (!transitionOn ==> reenablePending)
    }

    /** The logical slide whose dot is highlighted. */
    function LogicalActive(): (r: int)
      reads this
      requires n >= 1
      ensures 0 <= r < n
    {
      Logical(index, n)
    }

    /** Mounting: the initial state, then the effects in source order: the timer
        effect (no interval while the page is hidden) and the snap effect. */
    constructor (slides: seq<Slide>, hidden: bool, layout: Layout)
      requires |slides| >= 1
      ensures Valid()
      ensures this.slides == slides && n == |slides|
      ensures !paused && timerRunning == !hidden
      ensures index == AfterEffect(|slides| + InitialLogical, |slides|)
      ensures Logical(index, n) == InitialLogical % n
      ensures offset == if InBand(index, n) then 0.0 else OffsetOr(layout, index, 0.0)
      ensures if InBand(|slides| + InitialLogical, |slides|) then !transitionOn && reenablePending
        else transitionOn && !reenablePending
    {
      this.slides := slides;
      n := |slides|;
      index := |slides| + InitialLogical;
      offset := 0.0;
      paused := false;
      transitionOn := true;
      reenablePending := false;
      timerRunning := false;
      new;
      timerRunning := !paused && !hidden;
      RunIndexEffect(layout);
      ModUnique(n, n, 1, 0);
      CongruentMod(n + InitialLogical, InitialLogical, n);
    }

    /** `recalcOffset`: measure and store the centring offset, or keep the old
        one when something is not mounted. */
    method RecalcOffset(layout: Layout)
      modifies this`offset
      ensures offset == OffsetOr(layout, index, old(offset))
    {
      var measured := MeasuredOffset(layout, index);
      if measured.Some? {
        offset := measured.value;
      }
    }

    /** One run of the effect that depends on `index`: inside the band, switch
        the transition off, jump to the middle copy and schedule re-enabling;
        otherwise recompute the offset. Reports whether the index changed
        (only then does React render again and re-run the effect). */
    method IndexEffect(layout: Layout) returns (changed: bool)
      requires n >= 1
      modifies this`index, this`offset, this`transitionOn, this`reenablePending
      ensures if InBand(old(index), n) then
          index == Normalize(old(index), n) && changed == (index != old(index)) &&
          !transitionOn && reenablePending && offset == old(offset)
        else
          index == old(index) && !changed && offset == OffsetOr(layout, index, old(offset)) &&
          transitionOn == old(transitionOn) && reenablePending == old(reenablePending)
    {
      var leftBound := 0;
      var rightBound := 3 * n - 1;
      if index <= leftBound + 1 || index >= rightBound - 1 {
        var normalized := n + Rem(Rem(index, n) + n, n);
        transitionOn := false;
        changed := normalized != index;
        index := normalized;
        reenablePending := true;
      } else {
        changed := false;
        RecalcOffset(layout);
      }
    }

    /** The effect run after a render with a new index, including the second run
        that a snap's own index change causes. */
    method RunIndexEffect(layout: Layout)
      requires n >= 1
      modifies this`index, this`offset, this`transitionOn, this`reenablePending
      ensures index == AfterEffect(old(index), n)
      ensures offset == if InBand(index, n) then old(offset) else OffsetOr(layout, index, old(offset))
      ensures if InBand(old(index), n) then !transitionOn && reenablePending
        else transitionOn == old(transitionOn) && reenablePending == old(reenablePending)
    {
      var changed := IndexEffect(layout);
      if changed {
        changed := IndexEffect(layout);
      }
    }

    /** The state is the one `setIndex(v)` leaves behind when it starts from
        index `index0`, offset `offset0` and transition flags `on0`, `pending0`:
        an unchanged value changes nothing; a new one settles through the snap
        effect, the offset is re-measured unless the settled index is in the
        band, and a value in the band switches the transition off until the
        animation frame re-enables it. */
    ghost predicate AfterSetIndex(v: int, layout: Layout, index0: int, offset0: real, on0: bool, pending0: bool)
      reads this
      requires n >= 1
    {
      index == SettleIndex(index0, v, n) &&
      (v == index0 ==> offset == offset0 && transitionOn == on0 && reenablePending == pending0) &&
      (v != index0 ==>
        (offset == if InBand(index, n) then offset0 else OffsetOr(layout, index, offset0)) &&
        (if InBand(v, n) then !transitionOn && reenablePending
         else transitionOn == on0 && reenablePending == pending0))
    }

    /** `setIndex(v)`: nothing when `v` is the current index; otherwise store it
        and let the effect run. */
    method SetIndex(v: int, layout: Layout)
      requires n >= 1
      modifies this`index, this`offset, this`transitionOn, this`reenablePending
      ensures AfterSetIndex(v, layout, old(index), old(offset), old(transitionOn), old(reenablePending))
    {
      if v != index {
        index := v;
        RunIndexEffect(layout);
      }
    }

    /** One firing of the auto-advance interval; nothing happens when no interval
        is installed (while paused, or when the page was hidden). */
    method Tick(layout: Layout)
      requires Valid()
      modifies this`index, this`offset, this`transitionOn, this`reenablePending
      ensures Valid()
      ensures !old(timerRunning) ==> (index == old(index) && offset == old(offset) &&
        transitionOn == old(transitionOn) && reenablePending == old(reenablePending))
      ensures old(timerRunning) ==>
        AfterSetIndex(old(index) + 1, layout, old(index), old(offset), old(transitionOn), old(reenablePending))
      ensures old(timerRunning) ==> LogicalActive() == (old(LogicalActive()) + 1) % n
      ensures old(paused) ==> index == old(index)
    {
      if timerRunning {
        LogicalSucc(index, n);
        SetIndex(index + 1, layout);
      }
    }

    /** `goToLogical(t)`: move to the nearest of the three copies of slide `t`. */
    method GoToLogical(t: int, layout: Layout)
      requires Valid()
      modifies this`index, this`offset, this`transitionOn, this`reenablePending
      ensures Valid()
      ensures AfterSetIndex(NearestCandidate(t, n, old(index)), layout,
        old(index), old(offset), old(transitionOn), old(reenablePending))
      ensures 0 <= t < n ==> LogicalActive() == t
    {
      var candidates := [t, t + n, t + 2 * n];
      assert candidates == Candidates(t, n);
      var best, bestDist := Nearest(candidates, index);
      NearestIsCandidate(t, n, index, best);
      SetIndex(best, layout);
    }

    /** Clicking card `i` of the strip selects the slide that card shows. */
    method ClickCard(i: int, layout: Layout)
      requires Valid() && 0 <= i < 3 * n
      modifies this`index, this`offset, this`transitionOn, this`reenablePending
      ensures Valid()
      ensures AfterSetIndex(NearestCandidate(i % n, n, old(index)), layout,
        old(index), old(offset), old(transitionOn), old(reenablePending))
      ensures LogicalActive() == i % n
      ensures slides[LogicalActive()] == LoopSlides(slides)[i]
    {
      var target := Rem(Rem(i, n) + n, n);
      NormalizedRem(i, n);
      assert target == Logical(i, n);
      GoToLogical(target, layout);
      LoopSlideAt(slides, i);
    }

    /** Clicking dot `i` selects slide `i`. */
    method ClickDot(i: int, layout: Layout)
      requires Valid() && 0 <= i < n
      modifies this`index, this`offset, this`transitionOn, this`reenablePending
      ensures Valid()
      ensures AfterSetIndex(NearestCandidate(i, n, old(index)), layout,
        old(index), old(offset), old(transitionOn), old(reenablePending))
      ensures LogicalActive() == i
    {
      GoToLogical(i, layout);
    }

    /** Mouse enter (`p` true) or leave (`p` false). When `paused` changes, the
        timer effect clears the interval and installs a new one only if not
        paused and the page is not hidden; an unchanged value re-runs nothing. */
    method SetPaused(p: bool, hidden: bool)
      requires Valid()
      modifies this`paused, this`timerRunning
      ensures Valid()
      ensures paused == p
      ensures timerRunning == if p == old(paused) then old(timerRunning) else !p && !hidden
    {
      if p != paused {
        paused := p;
        timerRunning := !paused && !hidden;
      }
    }

    /** The second animation frame after a snap: the transition is on again. */
    method AnimationFrame()
      requires Valid()
      modifies this`transitionOn, this`reenablePending
      ensures Valid()
      ensures transitionOn == (old(transitionOn) || old(reenablePending))
      ensures !reenablePending
    {
      if reenablePending {
        transitionOn := true;
        reenablePending := false;
      }
    }
  }

  // ---------------------------------------------------------------------------
  // The gallery as shipped
  // ---------------------------------------------------------------------------

  /** The five slides in a 980-wide viewport with 300-wide cards 20 apart, the
      page visible: the carousel mounts on the middle copy of the third slide
      (index 7), outside the band, so the transition stays on; a tick moves to index 8 and centres it at offset 2220; a click
      on card 14, the last copy of the fifth slide, goes to its nearest copy,
      index 9, without a snap. */
  method DefaultGallery() returns (mounted: int, mountedTransition: bool, afterTick: int, offsetAfterTick: real,
                                   afterClick: int, clicked: Slide)
    ensures mounted == 7 && mountedTransition && afterTick == 8 && offsetAfterTick == 2220.0 && afterClick == 9
    ensures clicked == Slides[4]
  {
    var layout := Layout(Some(980.0), Some(Track(20.0, Some(300.0))));
    var c := new Carousel(Slides, false, layout);
    mounted, mountedTransition := c.index, c.transitionOn && !c.reenablePending;
    c.Tick(layout);
    afterTick, offsetAfterTick := c.index, c.offset;
    c.ClickCard(14, layout);
    afterClick := c.index;
    clicked := c.slides[c.LogicalActive()];
  }
}
