# Restaurant site: verified model of the interactive components

This project models the client-side logic of a restaurant website's React
components in Dafny and proves what each component promises:

- the looped **gallery carousel**: a strip of three copies of the slides,
  nearest-copy navigation, auto-advance, the silent snap back to the middle
  copy, and the centring offset;
- the fading **hero carousel**: a modular slide counter with next, previous and
  dots;
- the **about section**: recognising a YouTube link, extracting its
  11-character video id the way the regular expression
  `^.*(youtu.be\/|v\/|u\/\w\/|embed\/|watch\?v=|&v=)([^#&?]*).*` does,
  building the `tel:` link without white space, and choosing between the
  embedded player and the image;
- the two **menus**: category tabs over one static list of seventeen dishes, an
  empty-state message, and, in the second menu, cards that open one at a time;
- the two **product sections**: a wishlist heart toggle shared by both, plus the
  second section's `"<amount> <currency>"` price split and five-star rating.

Component state becomes a Dafny `class` whose methods are the event handlers
(`Gallery.Carousel`, `Hero.HeroCarousel`, `Menu.CategoryMenu`,
`MenuTwo.CardMenu`). Both product sections keep the same wishlist state with
the same update, so one class, `Wishlist.WishlistState`, serves both, and each
section adds its own heart click (`ProductCard.ClickHeart`,
`ProductCardTwo.ClickHeart`).
Each handler's `ensures` give its whole new state. For some handlers this
is a specification function of the old state, whose properties are lemmas:
`AfterSetIndex` for `Gallery.Carousel.SetIndex`, `Tick`, `GoToLogical`,
`ClickCard` and `ClickDot`; `AfterEffect` and `OffsetOr` for `RunIndexEffect`
and `RecalcOffset`; `NextOf` and `PrevOf` for `Hero.HeroCarousel.NextSlide`
and `PrevSlide`; `NextActiveItem` for `MenuTwo.CardMenu.HandleItemClick` and
`ClickCard`; `Toggle` for `Wishlist.WishlistState.ToggleWishlist` and both
`ClickHeart` methods. The other handlers give their fields one by one:
`Gallery.Carousel.IndexEffect`, `SetPaused` and `AnimationFrame`,
`Hero.HeroCarousel.GoToSlide` and `ClickDot`, `Menu.CategoryMenu.ClickTab`
(whose "only the clicked tab is active" is its own `ensures`), and
`MenuTwo.CardMenu.HandleCategoryClick` and `ClickTab`.

Pure helpers (the video id
parser, the filter, the toggle) are functions. JavaScript's truncating `%` is
modelled explicitly (`JsNumber.Rem`), because Dafny's `%` is Euclidean.

React's behaviour is part of the model where it matters:

- `setIndex(v)` with an unchanged value renders nothing and re-runs no effect.
- A changed index re-runs the effect that depends on it.
- The snap's own index change runs that effect a second time, and the second run
  provably leaves the index alone.

Inputs that come from the browser are parameters:

- measured widths, as a `Layout` value;
- whether the page is hidden, as a boolean;
- timer firings and animation frames, as separate methods.

`Menu.tsx` and `MenuTwo.tsx` each define the same seventeen-item list and the
same tabs, the same filter and the same empty-state test. `MenuCatalog` holds
them once, and the table cites `Menu.tsx` for both.

The star rating tests `i < Math.floor(rating)` first and `i < rating`
second. Both tests give the same class, so a star is filled exactly when
`i < rating` (`ProductCardTwo.StarFilled`).

## Model

| member | source | states |
|---|---|---|
| JsNumber.Rem | src/components/Gallery.tsx:34 | JavaScript's `a % b` for a positive divisor: it differs from `a` by a multiple of `b`, lies strictly between `-b` and `b`, and has the sign of `a` |
| JsNumber.Abs | src/components/Gallery.tsx:39-41 | `Math.abs`: never negative, and equal to `x` or `-x` |
| JsNumber.NormalizedRem | src/components/Gallery.tsx:34 | the idiom `((a % b) + b) % b` with JavaScript's `%` is the non-negative remainder of `a` |
| Gallery.LoopSlides | src/components/Gallery.tsx:25 | the rendered strip is three times as long as the slide list |
| Gallery.LoopSlideAt | src/components/Gallery.tsx:25 | strip position `i` shows slide `i mod N` |
| Gallery.Logical | src/components/Gallery.tsx:34 | `logicalActive` lies in `[0, N)` and is congruent to `index` mod N |
| Gallery.LogicalSucc | src/components/Gallery.tsx:34 | one step forward in the strip is one slide forward, cyclically |
| Gallery.Normalize | src/components/Gallery.tsx:83 | the snap target `N + logical` lies in `[N, 2N)`, shows the same slide, and for N ≥ 2 is outside the snap band |
| Gallery.InBand | src/components/Gallery.tsx:80-82 | the snap band is the two first and the two last strip positions, plus everything outside the strip |
| Gallery.SettledAwayFromEnds | src/components/Gallery.tsx:80-82 | with at least two slides, an index the snap leaves alone is at least one position away from both ends of the strip |
| Gallery.AfterEffect | src/components/Gallery.tsx:79-92 | after the snap effect the index is settled and shows the same slide; outside the band the index is unchanged |
| Gallery.SettleIndex | src/components/Gallery.tsx:79-92 | `setIndex(v)` comes to rest on an index that shows slide `v mod N` and stays settled |
| Gallery.Candidates | src/components/Gallery.tsx:37 | there are three candidates |
| Gallery.Nearest | src/components/Gallery.tsx:38-46 | the loop picks a candidate at minimal distance from `index`, strictly closer than every earlier one (ties go to the earliest), and returns its distance |
| Gallery.NearestCandidate | src/components/Gallery.tsx:36-48 | the copy picked from three candidates is the first of the closest to the current index |
| Gallery.NearestIsCandidate | src/components/Gallery.tsx:38-46 | the loop's choice is `NearestCandidate`, and for `0 ≤ t < N` it shows slide `t` |
| Gallery.NearestIsUnique | src/components/Gallery.tsx:42 | the strict comparison makes the choice unique: only one position is the first of the closest |
| Gallery.CandidateShowsTarget | src/components/Gallery.tsx:37 | every candidate shows the requested logical slide |
| Gallery.NearestMoveIsShort | src/components/Gallery.tsx:36-48 | from anywhere in the strip the chosen copy is fewer than N positions away |
| Gallery.MeasuredOffset | src/components/Gallery.tsx:56-77 | an offset is computed exactly when container, track and first card exist; shifting by it puts the centre of card `index` at the centre of the viewport |
| Gallery.OffsetExample | src/components/Gallery.tsx:73-76 | index 8 with 300-wide cards, a 20 gap and a 980-wide viewport gives offset 2220 (the formula does not depend on the number of slides) |
| Gallery.Translation | src/components/Gallery.tsx:125 | the render-time formula applied to the `offset` field (`Gallery.Carousel.offset`): `max(0, offset)` is never negative, never below the offset, and is one of the two |
| Gallery.Carousel.LogicalActive | src/components/Gallery.tsx:34 | the highlighted dot is in `[0, N)` |
| Gallery.Carousel.constructor | src/components/Gallery.tsx:26-30 | mounting starts on slide `2 mod N` in the middle copy, unpaused, with an interval unless the page is hidden, and with the snap effect already run: the transition stays on with no frame pending unless the mount index is in the band, and is off with re-enabling pending if it is |
| Gallery.Carousel.RecalcOffset | src/components/Gallery.tsx:56-77 | the offset becomes the measured one, or stays as it was when something is not mounted |
| Gallery.Carousel.IndexEffect | src/components/Gallery.tsx:79-92 | inside the band: transition off, the index jumps to the middle copy, re-enabling is scheduled, and the offset is untouched; otherwise the offset is recomputed and nothing else changes |
| Gallery.Carousel.RunIndexEffect | src/components/Gallery.tsx:79-92 | the effect, re-run after its own index change, ends on `AfterEffect` of the old index |
| Gallery.Carousel.SetIndex | src/components/Gallery.tsx:27 | the whole new state (`AfterSetIndex`): an unchanged value changes nothing; a new value settles on `SettleIndex`, re-measures the offset unless the settled index is in the band, and a value in the band switches the transition off until the animation frame |
| Gallery.Carousel.Tick | src/components/Gallery.tsx:50-54 | with an interval installed the new state is that of `setIndex(index + 1)`, one slide forward; without one (always so while paused) nothing changes |
| Gallery.Carousel.GoToLogical | src/components/Gallery.tsx:36-48 | the new state is that of `setIndex` on the first nearest of `t, t+N, t+2N`; for `0 ≤ t < N` the active slide is then `t` |
| Gallery.Carousel.ClickCard | src/components/Gallery.tsx:128-133 | clicking card `i` leaves the state of `setIndex` on the nearest copy of slide `i mod N`, which becomes the active one: the slide that card shows |
| Gallery.Carousel.ClickDot | src/components/Gallery.tsx:175-181 | clicking dot `i` leaves the state of `setIndex` on the nearest copy of slide `i`, which becomes the active one |
| Gallery.Carousel.SetPaused | src/components/Gallery.tsx:50-54 | hovering pauses; a changed `paused` clears the interval and installs one only when not paused and not hidden |
| Gallery.Carousel.AnimationFrame | src/components/Gallery.tsx:86-88 | the deferred callback turns the transition back on |
| Gallery.DefaultGallery | src/components/Gallery.tsx:13-30 | the shipped five slides in a 980-wide viewport mount on index 7 with the transition on; a tick moves to index 8 at offset 2220; a click on card 14 goes to index 9 and selects the fifth slide |
| Hero.NextOf | src/components/Hero.tsx:40 | from an in-range slide, `nextSlide` goes to the following one, the last wrapping to the first |
| Hero.PrevOf | src/components/Hero.tsx:41 | from an in-range slide, `prevSlide` goes to the preceding one, the first wrapping to the last |
| Hero.NextPrevInverse | src/components/Hero.tsx:40-41 | next then previous, and previous then next, give back the slide |
| Hero.NextTimesShifts | src/components/Hero.tsx:40 | `k` calls of `nextSlide` advance the slide by `k` mod len |
| Hero.FullCycle | src/components/Hero.tsx:40 | len calls of `nextSlide` return to the starting slide |
| Hero.ExactlyOneShown | src/components/Hero.tsx:55-56 | exactly one slide and one dot are active: the current one |
| Hero.HeroCarousel.constructor | src/components/Hero.tsx:14 | the carousel starts on slide 0 |
| Hero.HeroCarousel.NextSlide | src/components/Hero.tsx:40 | the next button and each interval firing apply `NextOf` and keep the slide in range |
| Hero.HeroCarousel.PrevSlide | src/components/Hero.tsx:41 | the previous button applies `PrevOf` and keeps the slide in range |
| Hero.HeroCarousel.GoToSlide | src/components/Hero.tsx:42 | `goToSlide(i)` sets exactly `i`, unchecked |
| Hero.HeroCarousel.ClickDot | src/components/Hero.tsx:127-130 | a dot passes an in-range index, so the slide stays in range |
| Hero.HeroCarousel.Shown | src/components/Hero.tsx:55-56 | in a valid state the shown set is exactly the current slide |
| About.Contains | src/components/About.tsx:23 | `includes` is true exactly when the substring occurs at some position |
| About.IsYouTubeUrl | src/components/About.tsx:22-24 | true exactly when "youtube.com" or "youtu.be" occurs in the URL |
| About.IsWhiteSpace | src/components/About.tsx:88 | `\s` covers every line terminator and no word or stop character |
| About.MarkerAt | src/components/About.tsx:28 | a marker alternative that matches at `p` fits inside the string |
| About.MarkerYoutuBe | src/components/About.tsx:28 | the `youtu.be\/` alternative matches exactly "youtu", one character other than a line terminator, then "be/" |
| About.MarkerV | src/components/About.tsx:28 | the `v\/` alternative matches exactly "v/" |
| About.MarkerU | src/components/About.tsx:28 | the `u\/\w\/` alternative matches exactly "u/", one word character, then "/" |
| About.MarkerEmbed | src/components/About.tsx:28 | the `embed\/` alternative matches exactly "embed/" |
| About.MarkerWatch | src/components/About.tsx:28 | the `watch\?v=` alternative matches exactly "watch?v=" |
| About.MarkerAmpV | src/components/About.tsx:28 | the `&v=` alternative matches exactly "&v=" |
| About.MarkerAtIsAlternation | src/components/About.tsx:28 | a marker matches at a position exactly when the text of one of the six alternatives is there, with that alternative's length |
| About.LineEndFrom | src/components/About.tsx:28 | the end of the line lies between the start and the end of the string |
| About.LineEndFromIsFirst | src/components/About.tsx:28 | the first line ends at the first line terminator, which `.*` cannot cross |
| About.LastMarkerBefore | src/components/About.tsx:28 | a marker found lies below the bound |
| About.LastMarkerBeforeIsRightmost | src/components/About.tsx:28 | the scan finds a marker with none further right below the bound, and finds none only when there is none |
| About.Run | src/components/About.tsx:28 | the captured run fits in the string after its start |
| About.RunIsMaximal | src/components/About.tsx:28 | the captured run is the text after the marker, holds no `#`, `&` or `?`, and ends at one of them or at the end |
| About.RunIsUnique | src/components/About.tsx:28 | a run with those properties is determined by its start |
| About.VideoId | src/components/About.tsx:27-31 | a returned id has exactly 11 characters |
| About.VideoIdIsMatch | src/components/About.tsx:28-30 | every returned id is the id group of a match of the regular expression |
| About.MatchIsVideoId | src/components/About.tsx:28-30 | every match whose id group has 11 characters is returned |
| About.NoMarkerNoId | src/components/About.tsx:29-30 | with no marker in the first line the result is null |
| About.StripWhiteSpace | src/components/About.tsx:88 | stripping never lengthens the string |
| About.StripKeepsOthers | src/components/About.tsx:88 | `replace(/\s/g, '')` drops every white-space character and keeps every other one as often as it occurs |
| About.StripLeavesNoWhiteSpace | src/components/About.tsx:88 | no white space is left |
| About.StripConcat | src/components/About.tsx:88 | stripping keeps the order: it distributes over concatenation |
| About.StripNoWhiteSpace | src/components/About.tsx:88 | a string without white space is unchanged |
| About.TelHref | src/components/About.tsx:88 | the link starts with "tel:" |
| About.TelHrefDialsDigits | src/components/About.tsx:88 | after "tel:" the link has no white space and every other character of the number, as often |
| About.EmbedSrc | src/components/About.tsx:119 | the player URL starts with the embed prefix, has 53 characters besides the id, and holds the id right after the prefix |
| About.VideoIdFor | src/components/About.tsx:47-48 | an id is computed only for a YouTube link; it is an 11-character regex match, and any such match is the one computed |
| About.SecondaryMedia | src/components/About.tsx:116-135 | the player, with that id's embed URL, appears exactly for a YouTube link with an 11-character match; otherwise the image shows the media string |
| About.DefaultTelHref | src/components/About.tsx:43 | the default number dials "tel:+122334455677" |
| About.DefaultMediaIsPlayer | src/components/About.tsx:45-48 | the default media is a YouTube link with id "kRCH8kD1GD0", so the player is shown |
| MenuCatalog.CategoryNameInjective | src/components/Menu.tsx:12 | different categories have different names; the same holds for the copy in MenuTwo.tsx |
| MenuCatalog.FilterByCategory | src/components/Menu.tsx:56 | the filter never lengthens the list |
| MenuCatalog.FilterMembers | src/components/Menu.tsx:56 | the filter keeps exactly the items of the category; the same holds for the copy in MenuTwo.tsx |
| MenuCatalog.FilterConcat | src/components/Menu.tsx:56 | the filter keeps menu order: it distributes over concatenation; the same holds for the copy in MenuTwo.tsx |
| MenuCatalog.FilterIdempotent | src/components/Menu.tsx:56 | filtering twice by the same category changes nothing more; the same holds for the copy in MenuTwo.tsx |
| MenuCatalog.CategoriesPartition | src/components/Menu.tsx:15-42 | each item has one category, so the five tabs' item counts add up to the list's length |
| MenuCatalog.SpecialsTab | src/components/Menu.tsx:17-19 | 'specials' shows bruschetta, calamari and caprese, in that order; the same holds for the copy in MenuTwo.tsx |
| MenuCatalog.BreakfastTab | src/components/Menu.tsx:22-23 | 'breakfast' shows pancakes and the omelette; the same holds for the copy in MenuTwo.tsx |
| MenuCatalog.LunchTab | src/components/Menu.tsx:26-28 | 'lunch' shows the pizza, the carbonara and the risotto; the same holds for the copy in MenuTwo.tsx |
| MenuCatalog.DinnerTab | src/components/Menu.tsx:31-36 | 'dinner' shows its six dishes in menu order; the same holds for the copy in MenuTwo.tsx |
| MenuCatalog.DessertsTab | src/components/Menu.tsx:39-41 | 'desserts' shows exactly tiramisu, gelato and cannoli; the same holds for the copy in MenuTwo.tsx |
| MenuCatalog.EveryTabHasItems | src/components/Menu.tsx:121 | no category is empty for this data; the same holds for the copy in MenuTwo.tsx |
| MenuCatalog.FilteredItems | src/components/Menu.tsx:56 | the grid holds exactly the dishes of the selected category; MenuTwo.tsx at line 59 computes the same list |
| MenuCatalog.ShowsEmptyState | src/components/Menu.tsx:121 | the message shows exactly when no dish has the selected category, which never happens; MenuTwo.tsx at line 196 tests the same |
| MenuCatalog.NavIdIsCategoryName | src/components/Menu.tsx:48-54 | every tab's id is its category's name, and tab ids are unique; the same holds for the copy in MenuTwo.tsx |
| Menu.CategoryMenu.constructor | src/components/Menu.tsx:45-46 | both the highlighted tab and the selected category start at 'specials' |
| Menu.CategoryMenu.IsActiveTab | src/components/Menu.tsx:70 | in a valid state, a tab is drawn active exactly when its category is the selected one |
| Menu.CategoryMenu.ClickTab | src/components/Menu.tsx:74-77 | a tab click sets both fields from the tab; afterwards the clicked tab, and only it, is active |
| MenuTwo.NextActiveItem | src/components/MenuTwo.tsx:61-63 | clicking the open card closes it; clicking any other card opens that one |
| MenuTwo.ItemClickTwice | src/components/MenuTwo.tsx:61-63 | two clicks on one card from no open card leave none open, and from that card open leave it open |
| MenuTwo.CardMenu.constructor | src/components/MenuTwo.tsx:45-47 | 'specials' is selected and no card is open |
| MenuTwo.CardMenu.IsOpen | src/components/MenuTwo.tsx:146 | with no active item every card is closed; the active item's card is open, and no card with another id is open beside it |
| MenuTwo.CardMenu.HandleItemClick | src/components/MenuTwo.tsx:61-63 | toggles the open card and leaves the tabs alone |
| MenuTwo.CardMenu.HandleCategoryClick | src/components/MenuTwo.tsx:65-69 | sets the tab and the category and closes any open card |
| MenuTwo.CardMenu.ClickTab | src/components/MenuTwo.tsx:119 | a tab click passes the tab's id and category, so highlighted tab and grid agree afterwards |
| MenuTwo.CardMenu.ClickCard | src/components/MenuTwo.tsx:146-151 | clicking a card toggles it, and afterwards no other card is open |
| Wishlist.Remove | src/components/ProductCard.tsx:58 | removal never lengthens the list |
| Wishlist.RemoveMembers | src/components/ProductCard.tsx:58 | removal drops every occurrence of the id and keeps every other id; ProductCardTwo.tsx applies the same update |
| Wishlist.RemoveCounts | src/components/ProductCard.tsx:58 | every other id keeps its number of occurrences; ProductCardTwo.tsx applies the same update |
| Wishlist.RemoveConcat | src/components/ProductCard.tsx:58 | removal keeps the other ids in order: it distributes over concatenation; ProductCardTwo.tsx applies the same update |
| Wishlist.RemoveAbsent | src/components/ProductCard.tsx:58 | removing an absent id changes nothing; ProductCardTwo.tsx applies the same update |
| Wishlist.Toggle | src/components/ProductCard.tsx:56-60 | the toggled id changes membership, no other id does, and an absent id is appended at the end; ProductCardTwo.tsx applies the same update |
| Wishlist.ToggleTwiceRestores | src/components/ProductCard.tsx:56-60 | toggling an absent id twice gives back the original list; ProductCardTwo.tsx applies the same update |
| Wishlist.ToggleTwiceMovesToEnd | src/components/ProductCard.tsx:56-60 | toggling a present id twice leaves it once, at the end, after the other ids; ProductCardTwo.tsx applies the same update |
| Wishlist.ToggleKeepsNoDuplicates | src/components/ProductCard.tsx:58 | a duplicate-free wishlist stays duplicate-free; ProductCardTwo.tsx applies the same update |
| Wishlist.WishlistState.constructor | src/components/ProductCard.tsx:54 | the wishlist starts empty; ProductCardTwo.tsx at line 66 starts the same way |
| Wishlist.WishlistState.IsHighlighted | src/components/ProductCard.tsx:115-117 | a heart is highlighted exactly when its id is in the wishlist; ProductCardTwo.tsx at line 113 draws it the same way |
| Wishlist.WishlistState.ToggleWishlist | src/components/ProductCard.tsx:56-60 | the new wishlist is `Toggle` of the old; only that heart flips, and no duplicate appears; ProductCardTwo.tsx at lines 68-72 is the same update |
| ProductCard.ClickHeart | src/components/ProductCard.tsx:114 | a heart click toggles that product and flips its heart |
| ProductCardTwo.Split | src/components/ProductCardTwo.tsx:92 | `split` gives at least one piece |
| ProductCardTwo.JoinSplit | src/components/ProductCardTwo.tsx:92 | `split(' ')` loses nothing: joining the pieces with the separator gives back the price |
| ProductCardTwo.SplitPiecesHaveNoSep | src/components/ProductCardTwo.tsx:92 | no piece contains the separator |
| ProductCardTwo.SplitTwoWords | src/components/ProductCardTwo.tsx:92 | "amount currency" without other spaces splits into exactly those two parts |
| ProductCardTwo.PriceParts | src/components/ProductCardTwo.tsx:92 | the amount holds no space; without a currency it is the whole price; with one, amount, space and currency begin the price, and the currency holds no space |
| ProductCardTwo.PricePartsOfTwoWords | src/components/ProductCardTwo.tsx:92 | such a price shows that amount and that currency |
| ProductCardTwo.PricePartsOfOneWord | src/components/ProductCardTwo.tsx:92 | a price without a space is all amount, with no currency |
| ProductCardTwo.FirstProductPrice | src/components/ProductCardTwo.tsx:92 | "10.99 USD" shows amount "10.99" and currency "USD" |
| ProductCardTwo.StarFilled | src/components/ProductCardTwo.tsx:129-139 | star `i` is filled exactly when `i < rating`; the floor test adds nothing |
| ProductCardTwo.Stars | src/components/ProductCardTwo.tsx:129-139 | five stars, star `i` filled exactly when `i < rating` |
| ProductCardTwo.AboveFourFillsAllStars | src/components/ProductCardTwo.tsx:129-139 | any rating above 4, 4.1 included, fills all five stars |
| ProductCardTwo.ProductsRatedAboveFour | src/components/ProductCardTwo.tsx:129-139 | every listed product is rated above 4 and shows five filled stars |
| ProductCardTwo.ClickHeart | src/components/ProductCardTwo.tsx:111 | a heart click toggles that product and flips its heart |

## Left out

- Rendering is not modelled: JSX markup, CSS classes, `Image`, icons and the page layout in `src/app/page.tsx`. Only the conditions that choose what is drawn are modelled.
- DOM measurement is not modelled. `getBoundingClientRect`, `getComputedStyle` and the `parseFloat` fallback chain for the gap (`src/components/Gallery.tsx:66-70`) are replaced by a `Layout` input carrying the widths and the already parsed gap. Real numbers stand in for floating point, so rounding is not modelled.
- The `ResizeObserver` (`src/components/Gallery.tsx:94-100`) is not modelled. It re-measures with the `index` captured at mount time, which is React closure behaviour; `RecalcOffset` is the measurement it triggers.
- The timer is not modelled: `setInterval`, `clearInterval` and the 5000 ms period for both carousels. Each firing is a call to `Gallery.Carousel.Tick` or `Hero.HeroCarousel.NextSlide`.
- `document.hidden` is an input, read when the timer effect runs. There is no visibility listener, so nothing resumes on visibility change.
- The two nested `requestAnimationFrame` calls are one deferred callback, `Gallery.Carousel.AnimationFrame`. Frame timing is not modelled.
- `scrollIntoView` centring of the active pill (`src/components/MenuTwo.tsx:71-78`) is a browser side effect and is not modelled.
- Strings are sequences of Dafny characters (Unicode scalar values), not JavaScript's UTF-16 code units; `\s` and `.` are modelled on that character set.
- The video id parser covers URLs with line terminators as well. The leading `.*` cannot cross a line terminator; the id group can, as `[^#&?]` allows.
- About.MarkerAt, About.VideoId, About.TelHref, About.LineEndFrom, About.LastMarkerBefore, About.Run, About.StripWhiteSpace: their own contracts are weak by design, to keep evaluation on literal strings cheap. The full statements are the lemmas listed next to them in the table: `About.MarkerAtIsAlternation` for `MarkerAt`, `About.VideoIdIsMatch` and `About.MatchIsVideoId` for `VideoId`, `About.TelHrefDialsDigits` for `TelHref`, `About.LineEndFromIsFirst`, `About.LastMarkerBeforeIsRightmost`, `About.RunIsMaximal`, and the `Strip` lemmas for `StripWhiteSpace`.
- MenuCatalog.FilterByCategory, Wishlist.Remove, ProductCardTwo.Split: their own contracts bound the result's length only. What they compute is stated by `MenuCatalog.FilterMembers` and `MenuCatalog.FilterConcat`, by `Wishlist.RemoveMembers` and `Wishlist.RemoveCounts`, and by `ProductCardTwo.JoinSplit` and `ProductCardTwo.SplitPiecesHaveNoSep`.
- The cart button and the prices' display text in the first product section are rendering only.
