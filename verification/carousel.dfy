/** The photo carousel of the landing page: a slide index that wraps modulo
    the slide count, bounds-guarded direct jumps, the swipe rule, the render
    step that marks the active slide and indicator, and the prefetch of the
    images adjacent to the current one. The auto-play timer is not modelled;
    every navigation here corresponds to one user or timer event. */
module Carousel {
  import opened Js

  /** Minimum horizontal travel, in CSS pixels, for a touch to count as a
      swipe. Touch positions are fractional, so the threshold is a real. */
  const SwipeThreshold: real := 50.0

  /** A slide image: its source URL and whether it is marked `loading="lazy"`. */
  datatype Image = Image(src: string, lazy: bool)

  /** The carousel after a successful initialisation. `prefetched` holds the
      `href` of every `<link>` element in the document head, in order. */
  datatype Carousel = Carousel(
    index: nat,
    slideCount: nat,
    hasIndicators: bool,
    images: seq<Image>,
    prefetched: seq<string>)
  {
    /** The index names one of the slides. */
    predicate Valid() {
      slideCount >= 1 && index < slideCount
    }
  }

  /** What `updateSlide` writes to the page: the track's horizontal offset in
      percent, the "active" marker of every slide, and the markers of the
      indicators when the indicator container exists. */
  datatype View = View(translateX: int, slideActive: seq<bool>, indicatorActive: Option<seq<bool>>)

  /** One prefetch step: a lazy image whose source no link carries yet gets one. */
  function AddPrefetch(links: seq<string>, img: Image): (r: seq<string>)
    ensures img.lazy ==> img.src in r
    ensures r == links || (img.lazy && img.src !in links && r == links + [img.src])
  {
    if img.lazy && img.src !in links then links + [img.src] else links
  }

  /** The images after and before image `i`, in that order; the image count,
      not the slide count, is the modulus. */
  function AdjacentImages(i: nat, images: seq<Image>): (r: seq<Image>)
    requires |images| > 0
    ensures |r| == 2
    ensures i < |images| ==> r[0] == images[if i == |images| - 1 then 0 else i + 1]
    ensures i < |images| ==> r[1] == images[if i == 0 then |images| - 1 else i - 1]
  {
    var total := |images|;
    NeighbourMods(i, total);
    [images[(i + 1) % total], images[(i - 1 + total) % total]]
  }

  /** The neighbours depend on the slide index only modulo the image count:
      with more slides than images, slide `i` preloads the neighbours of
      image `i mod |images|`. */
  lemma AdjacentImagesPeriodic(i: nat, images: seq<Image>)
    requires |images| > 0
    ensures AdjacentImages(i, images) == AdjacentImages(i % |images|, images)
  {
    NeighbourPeriodic(i, |images|);
  }

  /** Both neighbour positions of `i` equal those of `i mod n`. */
  lemma NeighbourPeriodic(i: nat, n: nat)
    requires n > 0
    ensures (i + 1) % n == (i % n + 1) % n
    ensures (i - 1 + n) % n == (i % n - 1 + n) % n
  {
    var q, r := i / n, i % n;
    assert i == q * n + r;
    assert (q + 1) * n == q * n + n;
    if r + 1 < n {
      ModUnique(i + 1, n, q, r + 1);
      ModUnique(r + 1, n, 0, r + 1);
    } else {
      ModUnique(i + 1, n, q + 1, 0);
      ModUnique(r + 1, n, 1, 0);
    }
    if r >= 1 {
      ModUnique(i - 1 + n, n, q + 1, r - 1);
      ModUnique(r - 1 + n, n, 1, r - 1);
    } else {
      ModUnique(i - 1 + n, n, q, n - 1);
      ModUnique(n - 1, n, 0, n - 1);
    }
  }

  /** Three images, slide 4: the next image is the third's successor and
      the previous one the third's predecessor, as for image 1. */
  lemma AdjacentImagesPastImageCount(a: Image, b: Image, c: Image)
    ensures AdjacentImages(4, [a, b, c]) == [c, a]
  {
    AdjacentImagesPeriodic(4, [a, b, c]);
  }

  /** The two neighbour positions of a position `i < n`, modulo `n`. */
  lemma NeighbourMods(i: nat, n: nat)
    requires n > 0
    ensures i < n ==> (i + 1) % n == if i == n - 1 then 0 else i + 1
    ensures i < n ==> (i - 1 + n) % n == if i == 0 then n - 1 else i - 1
  {
    if i < n {
      if i == n - 1 { ModUnique(i + 1, n, 1, 0); } else { ModUnique(i + 1, n, 0, i + 1); }
      if i == 0 { ModUnique(i - 1 + n, n, 0, n - 1); } else { ModUnique(i - 1 + n, n, 1, i - 1); }
    }
  }

  /** `preloadAdjacentImages`: a prefetch link for each lazy neighbour of
      image `i`, never a second link for the same source. */
  function Preload(i: nat, images: seq<Image>, links: seq<string>): (r: seq<string>)
    ensures |images| == 0 ==> r == links
    ensures |links| <= |r| <= |links| + 2 && r[..|links|] == links
  {
    if |images| == 0 then links
    else
      var adjacent := AdjacentImages(i, images);
      var first := AddPrefetch(links, adjacent[0]);
      var r := AddPrefetch(first, adjacent[1]);
      assert r[..|links|] == links;
      r
  }

  /** After the prefetch step every lazy neighbour has a link, the links
      stay duplicate-free, and every new link is for a lazy neighbour that
      had none. */
  lemma PreloadLinks(i: nat, images: seq<Image>, links: seq<string>)
    requires |images| > 0
    ensures var r := Preload(i, images, links);
      && (NoDuplicates(links) ==> NoDuplicates(r))
      && (forall img :: img in AdjacentImages(i, images) && img.lazy ==> img.src in r)
      && (forall k :: |links| <= k < |r| ==>
            exists img :: img in AdjacentImages(i, images) && img.lazy && img.src == r[k] && img.src !in links)
  {
    var adjacent := AdjacentImages(i, images);
    var first := AddPrefetch(links, adjacent[0]);
    var r := AddPrefetch(first, adjacent[1]);
    assert Preload(i, images, links) == r;
  }

  /** Sets the index and then runs the render and prefetch steps. */
  function MoveTo(c: Carousel, target: nat): (r: Carousel)
    requires c.Valid() && target < c.slideCount
    ensures r.Valid() && r.index == target
    ensures r.slideCount == c.slideCount && r.hasIndicators == c.hasIndicators && r.images == c.images
    ensures r.prefetched == Preload(target, c.images, c.prefetched)
  {
    c.(index := target, prefetched := Preload(target, c.images, c.prefetched))
  }

  /** `init`: a carousel exists only when the track and at least one slide
      are present; it starts on slide 0 and prefetches that slide's neighbours. */
  function Init(hasTrack: bool, slideCount: nat, hasIndicators: bool, images: seq<Image>, links: seq<string>)
    : (r: Option<Carousel>)
    ensures r.Some? <==> hasTrack && slideCount >= 1
    ensures r.Some? ==> r.value.Valid() && r.value.index == 0 && r.value.slideCount == slideCount
    ensures r.Some? ==> r.value.prefetched == Preload(0, images, links)
  {
    if !hasTrack || slideCount == 0 then None
    else Some(Carousel(0, slideCount, hasIndicators, images, Preload(0, images, links)))
  }

  /** A freshly initialised carousel shows its first slide, untranslated,
      and exactly that slide is active. */
  lemma InitShowsFirstSlide(hasTrack: bool, slideCount: nat, hasIndicators: bool, images: seq<Image>, links: seq<string>)
    requires hasTrack && slideCount >= 1
    ensures var c := Init(hasTrack, slideCount, hasIndicators, images, links).value;
      Render(c).translateX == 0 && Render(c).slideActive[0] && CountActive(Render(c).slideActive) == 1
  {
    RenderExactlyOneActive(Init(hasTrack, slideCount, hasIndicators, images, links).value);
  }

  /** `goToSlide`: an index outside the slides is ignored; any other index is
      taken as it is. */
  function GoToSlide(c: Carousel, k: int): (r: Carousel)
    requires c.Valid()
    ensures r.Valid() && r.slideCount == c.slideCount
    ensures (k < 0 || k >= c.slideCount) ==> r == c
    ensures 0 <= k < c.slideCount ==> r.index == k && r.prefetched == Preload(k, c.images, c.prefetched)
    ensures r.images == c.images && r.hasIndicators == c.hasIndicators
  {
    if k < 0 || k >= c.slideCount then c else MoveTo(c, k)
  }

  /** `nextSlide`: one step forward, from the last slide back to the first. */
  function NextSlide(c: Carousel): (r: Carousel)
    requires c.Valid()
    ensures r.Valid() && r.slideCount == c.slideCount && r.images == c.images
    ensures r.index == if c.index == c.slideCount - 1 then 0 else c.index + 1
    ensures r.hasIndicators == c.hasIndicators
    ensures r.prefetched == Preload(r.index, c.images, c.prefetched)
  {
    NeighbourMods(c.index, c.slideCount);
    MoveTo(c, (c.index + 1) % c.slideCount)
  }

  /** `prevSlide`: one step back, from the first slide to the last. */
  function PrevSlide(c: Carousel): (r: Carousel)
    requires c.Valid()
    ensures r.Valid() && r.slideCount == c.slideCount && r.images == c.images
    ensures r.index == if c.index == 0 then c.slideCount - 1 else c.index - 1
    ensures r.hasIndicators == c.hasIndicators
    ensures r.prefetched == Preload(r.index, c.images, c.prefetched)
  {
    NeighbourMods(c.index, c.slideCount);
    MoveTo(c, (c.index - 1 + c.slideCount) % c.slideCount)
  }

  /** `updateSlide`: the rendered view of the carousel. */
  function Render(c: Carousel): (v: View)
    requires c.Valid()
    ensures v.translateX == -100 * c.index
    ensures |v.slideActive| == c.slideCount
    ensures forall k :: 0 <= k < |v.slideActive| ==> (v.slideActive[k] <==> k == c.index)
    ensures v.indicatorActive.Some? <==> c.hasIndicators
    ensures v.indicatorActive.Some? ==> v.indicatorActive.value == v.slideActive
  {
    var marks := seq(c.slideCount, k => k == c.index);
    View(-(c.index as int) * 100, marks, if c.hasIndicators then Some(marks) else None)
  }

  /** Number of set markers. */
  function CountActive(marks: seq<bool>): nat {
    if |marks| == 0 then 0 else (if marks[0] then 1 else 0) + CountActive(marks[1..])
  }

  /** A marker sequence with exactly position `k` set has one set marker. */
  lemma {:induction false} CountActiveSingle(marks: seq<bool>, k: nat)
    requires k < |marks|
    requires forall j :: 0 <= j < |marks| ==> (marks[j] <==> j == k)
    ensures CountActive(marks) == 1
  {
    if k == 0 {
      CountActiveNone(marks[1..]);
    } else {
      CountActiveSingle(marks[1..], k - 1);
    }
  }

  lemma {:induction false} CountActiveNone(marks: seq<bool>)
    requires forall j :: 0 <= j < |marks| ==> !marks[j]
    ensures CountActive(marks) == 0
  {
    if |marks| > 0 {
      CountActiveNone(marks[1..]);
    }
  }

  /** After a render exactly one slide, and exactly one indicator when there
      are indicators, carries the "active" marker. */
  lemma RenderExactlyOneActive(c: Carousel)
    requires c.Valid()
    ensures CountActive(Render(c).slideActive) == 1
    ensures c.hasIndicators ==> CountActive(Render(c).indicatorActive.value) == 1
  {
    CountActiveSingle(Render(c).slideActive, c.index);
  }

  /** `handleSwipe` with the touch start and end positions: a travel of at
      most 50 px does nothing; a leftward travel (start right of end) goes
      forward, a rightward travel goes back. */
  function HandleSwipe(c: Carousel, touchStartX: real, touchEndX: real): (r: Carousel)
    requires c.Valid()
    ensures r.Valid()
    ensures -SwipeThreshold <= touchStartX - touchEndX <= SwipeThreshold ==> r == c
    ensures touchStartX - touchEndX > SwipeThreshold ==> r == NextSlide(c)
    ensures touchStartX - touchEndX < -SwipeThreshold ==> r == PrevSlide(c)
  {
    var diff := touchStartX - touchEndX;
    var magnitude := if diff < 0.0 then -diff else diff;
    if magnitude > SwipeThreshold then
      if diff > 0.0 then NextSlide(c) else PrevSlide(c)
    else c
  }

  /** A finger moving right by 100 px (start 100, end 200) goes BACK one
      slide, on every carousel; a move of 30 px does nothing. */
  lemma SwipeRightGoesBack(c: Carousel)
    requires c.Valid()
    ensures HandleSwipe(c, 100.0, 200.0) == PrevSlide(c)
    ensures HandleSwipe(c, 100.0, 130.0) == c
  {
  }

  /** The threshold is strict: a travel of exactly 50 px is ignored, one of
      50.5 px already counts. */
  lemma SwipeThresholdStrict(c: Carousel, x: real)
    requires c.Valid()
    ensures HandleSwipe(c, x + 50.0, x) == c
    ensures HandleSwipe(c, x + 50.5, x) == NextSlide(c)
  {
  }

  /** A swipe one way followed by an equally long swipe the other way
      returns to the slide it started from, from every position. */
  lemma SwipeThereAndBack(c: Carousel, x: real, d: real)
    requires c.Valid() && d > SwipeThreshold
    ensures HandleSwipe(c, x, x - d) == NextSlide(c)
    ensures HandleSwipe(HandleSwipe(c, x, x - d), x, x + d).index == c.index
  {
    NextPrevInverse(c);
  }

  /** Going forward then back, or back then forward, returns to the same slide. */
  lemma NextPrevInverse(c: Carousel)
    requires c.Valid()
    ensures PrevSlide(NextSlide(c)).index == c.index
    ensures NextSlide(PrevSlide(c)).index == c.index
  {
  }

  /** `k` successive `nextSlide` calls. */
  function Advance(c: Carousel, k: nat): (r: Carousel)
    requires c.Valid()
    ensures r.Valid() && r.slideCount == c.slideCount
    ensures r.index == Steps(c.index, k, c.slideCount)
  {
    if k == 0 then c else NextSlide(Advance(c, k - 1))
  }

  /** The position reached from `i` after `k` wrapping steps on `n` positions. */
  function Steps(i: nat, k: nat, n: nat): (r: nat)
    requires i < n
    ensures r < n
  {
    if k == 0 then i
    else
      var p := Steps(i, k - 1, n);
      if p == n - 1 then 0 else p + 1
  }

  /** Wrapping steps are addition modulo `n`. */
  lemma {:induction false} StepsMod(i: nat, k: nat, n: nat)
    requires i < n
    ensures Steps(i, k, n) == (i + k) % n
  {
    if k > 0 {
      StepsMod(i, k - 1, n);
      ModSucc(i + (k - 1), n);
    } else {
      ModUnique(i, n, 0, i);
    }
  }

  /** After `k` forward steps the index is `(i + k) mod n`. */
  lemma {:induction false} AdvanceIndex(c: Carousel, k: nat)
    requires c.Valid()
    ensures Advance(c, k).index == (c.index + k) % c.slideCount
  {
    StepsMod(c.index, k, c.slideCount);
  }

  /** A jump to slide `k` lands where `(k - index) mod n` presses of "next"
      would: direct navigation and stepping agree. */
  lemma GoToSlideIsAdvance(c: Carousel, k: int)
    requires c.Valid() && 0 <= k < c.slideCount
    ensures GoToSlide(c, k).index == Advance(c, (k - c.index) % c.slideCount).index
  {
    var d: nat := (k - c.index) % c.slideCount;
    JumpOffset(c.index, k, c.slideCount);
    AdvanceReaches(c, d, k);
  }

  /** Any number of steps that lands on `k` by the wrap-around count
      brings the carousel to slide `k`. */
  lemma AdvanceReaches(c: Carousel, d: nat, k: int)
    requires c.Valid() && (c.index + d) % c.slideCount == k
    ensures Advance(c, d).index == k
  {
    AdvanceIndex(c, d);
  }

  /** Stepping `(k - i) mod n` times from `i` reaches `k`. */
  lemma JumpOffset(i: nat, k: nat, n: nat)
    requires i < n && k < n
    ensures (i + (k - i) % n) % n == k
  {
    var d := (k - i) % n;
    if k >= i {
      ModUnique(k - i, n, 0, k - i);
      ModUnique(i + d, n, 0, k);
    } else {
      ModUnique(k - i, n, -1, k - i + n);
      ModUnique(i + d, n, 1, k);
    }
  }

  /** `d * n >= n` for a positive factor `d`. */
  lemma {:induction false} MulAtLeast(d: int, n: nat)
    requires d >= 1
    ensures d * n >= n
    decreases d
  {
    if d > 1 {
      MulAtLeast(d - 1, n);
      assert d * n == (d - 1) * n + n;
    }
  }

  /** A remainder in `[0, n)` of a division by `n` is the remainder. */
  lemma ModUnique(x: int, n: nat, q: int, r: int)
    requires n > 0 && 0 <= r < n && x == q * n + r
    ensures x % n == r
  {
    var q', r' := x / n, x % n;
    assert x == q' * n + r';
    assert (q - q') * n == r' - r;
    if q - q' >= 1 {
      MulAtLeast(q - q', n);
    } else if q' - q >= 1 {
      MulAtLeast(q' - q, n);
    }
  }

  /** Adding one commutes with reduction modulo `n`. */
  lemma ModSucc(a: nat, n: nat)
    requires n > 0
    ensures (a + 1) % n == if a % n == n - 1 then 0 else a % n + 1
  {
    var q, r := a / n, a % n;
    assert a == q * n + r;
    if r == n - 1 {
      ModUnique(a + 1, n, q + 1, 0);
    } else {
      ModUnique(a + 1, n, q, r + 1);
    }
  }

  /** `n` forward steps on `n` slides come back to the starting slide. */
  lemma {:induction false} FullCycle(c: Carousel)
    requires c.Valid()
    ensures Advance(c, c.slideCount).index == c.index
  {
    var n := c.slideCount;
    AdvanceIndex(c, n);
    assert c.index + n == 1 * n + c.index;
    ModUnique(c.index + n, n, 1, c.index);
  }
}
