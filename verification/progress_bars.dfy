/**
 * The skill progress bars (portfolio.js, lines 1-29).  Each bar's width is set from its
 * `data-progress` attribute the first time the `#skills` section is in view; a latch
 * (`hasAnimated`) makes that happen at most once, and the scroll listener removes itself
 * once the section has been seen.
 */
module ProgressBars {

  import opened Wrappers

  /**
   * A `.progress` element: its `data-progress` attribute and the text the script last assigned
   * to `style.width` (None before any assignment).
   */
  datatype Bar = Bar(progress: Option<string>, styleWidth: Option<string>)

  /** The vertical extent of `#skills` from `getBoundingClientRect()`. */
  datatype Box = Box(top: real, bottom: real)

  /** The script's state: the bars, the latch, and whether the scroll listener is attached. */
  datatype Page = Page(bars: seq<Bar>, hasAnimated: bool, listening: bool)

  /** One scroll event: where `#skills` is (if the page has one) and the viewport height. */
  datatype Scroll = Scroll(skills: Option<Box>, innerHeight: real)

  /** String concatenation turns a missing attribute (`null`) into the text "null". */
  function AttrText(v: Option<string>): string
  {
    if v.Some? then v.value else "null"
  }

  /** The text `value + '%'` the script assigns to a bar's width. */
  function TargetWidth(b: Bar): string
  {
    AttrText(b.progress) + "%"
  }

  /** The section is in view: its top is above the viewport's bottom and its bottom below the top. */
  predicate IsVisible(b: Box, innerHeight: real)
  {
    b.top < innerHeight && b.bottom >= 0.0
  }

  /** `animateBars`: sets every bar's width, unless it has already done so. */
  function AnimateBars(p: Page): (q: Page)
    ensures q.hasAnimated && q.listening == p.listening && |q.bars| == |p.bars|
    ensures forall k :: 0 <= k < |q.bars| ==> q.bars[k].progress == p.bars[k].progress
    ensures p.hasAnimated ==> q == p
    ensures !p.hasAnimated ==> forall k :: 0 <= k < |q.bars| ==> q.bars[k].styleWidth == Some(TargetWidth(p.bars[k]))
  {
    if p.hasAnimated then p
    else p.(bars := seq(|p.bars|, k requires 0 <= k < |p.bars| => p.bars[k].(styleWidth := Some(TargetWidth(p.bars[k])))),
            hasAnimated := true)
  }

  /** `checkVisibility`: animates and detaches the listener when `#skills` exists and is in view. */
  function CheckVisibility(p: Page, skills: Option<Box>, innerHeight: real): (q: Page)
    ensures skills.Some? && IsVisible(skills.value, innerHeight) ==> q.hasAnimated && !q.listening
    ensures !(skills.Some? && IsVisible(skills.value, innerHeight)) ==> q == p
    ensures q.bars == p.bars || (!p.hasAnimated && q.hasAnimated)
    ensures p.hasAnimated ==> q.hasAnimated
    ensures Consistent(p) ==> Consistent(q)
  {
    if skills.None? then p
    else if IsVisible(skills.value, innerHeight) then AnimateBars(p).(listening := false)
    else p
  }

  /**
   * Page load: one check, then the listener is attached.  The check runs before
   * `addEventListener`, so its `removeEventListener` has nothing to remove and the
   * listener is attached even when the section was already in view.
   */
  function Load(progress: seq<Option<string>>, skills: Option<Box>, innerHeight: real): (p: Page)
    ensures |p.bars| == |progress| && p.listening
    ensures forall k :: 0 <= k < |progress| ==> p.bars[k].progress == progress[k]
  {
    var initial := Page(seq(|progress|, k requires 0 <= k < |progress| => Bar(progress[k], None)), false, false);
    CheckVisibility(initial, skills, innerHeight).(listening := true)
  }

  /** A scroll event reaches `checkVisibility` only while the listener is attached. */
  function OnScroll(p: Page, e: Scroll): (q: Page)
    ensures !p.listening ==> q == p
    ensures q.listening ==> p.listening
    ensures p.hasAnimated ==> q.bars == p.bars && q.hasAnimated
    ensures Consistent(p) ==> Consistent(q) && |q.bars| == |p.bars|
  {
    if p.listening then CheckVisibility(p, e.skills, e.innerHeight) else p
  }

  function Run(p: Page, es: seq<Scroll>): Page
    decreases |es|
  {
    if |es| == 0 then p else Run(OnScroll(p, es[0]), es[1..])
  }

  /** Before the latch closes no width has been set; after, every width is the attribute plus `%`. */
  predicate Consistent(p: Page)
  {
    forall k :: 0 <= k < |p.bars| ==> p.bars[k].styleWidth == (if p.hasAnimated then Some(TargetWidth(p.bars[k])) else None)
  }

  // ---------------------------------------------------------------------------------------------

  /** Animating twice is animating once. */
  lemma AnimateOnce(p: Page)
    ensures AnimateBars(AnimateBars(p)) == AnimateBars(p)
  {
  }

  /** On a page not yet animated, a check closes the latch exactly when the section exists and is in view. */
  lemma CheckFiresIffVisible(p: Page, skills: Option<Box>, innerHeight: real)
    requires !p.hasAnimated
    ensures CheckVisibility(p, skills, innerHeight).hasAnimated <==> skills.Some? && IsVisible(skills.value, innerHeight)
    ensures CheckVisibility(p, skills, innerHeight).hasAnimated ==> !CheckVisibility(p, skills, innerHeight).listening
    ensures !CheckVisibility(p, skills, innerHeight).hasAnimated ==> CheckVisibility(p, skills, innerHeight) == p
  {
  }

  predicate InView(y: real, b: Box, innerHeight: real)
  {
    b.top <= y <= b.bottom && 0.0 <= y < innerHeight
  }

  /** For a box of non-negative height and a non-empty viewport, the test means the two overlap. */
  lemma VisibleIffOverlap(b: Box, innerHeight: real)
    requires b.top <= b.bottom && innerHeight > 0.0
    ensures IsVisible(b, innerHeight) <==> exists y :: InView(y, b, innerHeight)
  {
    if IsVisible(b, innerHeight) {
      var y := if b.top >= 0.0 then b.top else 0.0;
      assert InView(y, b, innerHeight);
    }
  }

  /** The page starts consistent: the widths are set exactly when the section was in view at load. */
  lemma LoadConsistent(progress: seq<Option<string>>, skills: Option<Box>, innerHeight: real)
    ensures Consistent(Load(progress, skills, innerHeight))
    ensures Load(progress, skills, innerHeight).hasAnimated <==> skills.Some? && IsVisible(skills.value, innerHeight)
  {
  }

  /** Scroll events keep the page consistent: widths are only ever unset or set to their target. */
  lemma {:induction false} RunKeepsConsistent(p: Page, es: seq<Scroll>)
    requires Consistent(p)
    ensures Consistent(Run(p, es))
    ensures |Run(p, es).bars| == |p.bars|
    ensures p.hasAnimated ==> Run(p, es).hasAnimated
    decreases |es|
  {
    if |es| > 0 {
      var q := OnScroll(p, es[0]);
      assert Consistent(q) && |q.bars| == |p.bars|;
      RunKeepsConsistent(q, es[1..]);
    }
  }

  /** Once the bars are animated, no sequence of scrolls changes them again. */
  lemma {:induction false} LatchHolds(p: Page, es: seq<Scroll>)
    requires p.hasAnimated
    ensures Run(p, es).bars == p.bars && Run(p, es).hasAnimated
    decreases |es|
  {
    if |es| > 0 {
      LatchHolds(OnScroll(p, es[0]), es[1..]);
    }
  }

  /** Once the listener is removed, scrolling does nothing at all. */
  lemma {:induction false} DetachedIgnoresScrolls(p: Page, es: seq<Scroll>)
    requires !p.listening
    ensures Run(p, es) == p
    decreases |es|
  {
    if |es| > 0 {
      DetachedIgnoresScrolls(OnScroll(p, es[0]), es[1..]);
    }
  }
}
