/**
 * The image slider (portfolio.js, lines 219-258): an index `currentSlide` into `n` slides,
 * moved by the previous and next buttons and by a five-second auto-advance timer, with exactly
 * the slide at that index shown.  The handlers are only installed when `n > 0`.
 */
module Slider {

  /**
   * JavaScript's `%`: the remainder of division truncated toward zero, so its sign follows
   * the dividend (Dafny's `%` is Euclidean and never negative).  Only positive divisors occur.
   */
  function JsRem(a: int, b: int): (r: int)
    requires b > 0
    ensures a >= 0 ==> r == a % b
    ensures a < 0 ==> -b < r <= 0 && a == -((-a) / b) * b + r
  {
    if a >= 0 then a % b else -((-a) % b)
  }

  /** The next button and the timer: `(currentSlide + 1) % slides.length`. */
  function Next(i: int, n: int): (r: int)
    requires n > 0
    ensures -1 <= i ==> 0 <= r < n
    ensures 0 <= i < n ==> r == if i == n - 1 then 0 else i + 1
  {
    JsRem(i + 1, n)
  }

  /** The previous button: `(currentSlide - 1 + slides.length) % slides.length`. */
  function Prev(i: int, n: int): (r: int)
    requires n > 0
    ensures 1 - n <= i ==> 0 <= r < n
    ensures 0 <= i < n ==> r == if i == 0 then n - 1 else i - 1
  {
    JsRem(i - 1 + n, n)
  }

  /** The slider as the page holds it: the slide count and the current index. */
  datatype Carousel = Carousel(count: int, current: int)

  datatype Event = PrevClick | NextClick | Tick

  predicate Valid(c: Carousel)
  {
    0 <= c.current < c.count
  }

  /** The slider once the page has loaded: the first slide is current. */
  function Start(n: int): (c: Carousel)
    requires n > 0
    ensures Valid(c) && c.current == 0 && c.count == n
  {
    Carousel(n, 0)
  }

  function Step(c: Carousel, e: Event): (d: Carousel)
    requires c.count > 0
    ensures d.count == c.count
    ensures Valid(c) ==> Valid(d)
  {
    match e
    case PrevClick => c.(current := Prev(c.current, c.count))
    case NextClick => c.(current := Next(c.current, c.count))
    case Tick => c.(current := Next(c.current, c.count))
  }

  function Run(c: Carousel, es: seq<Event>): Carousel
    requires c.count > 0
    decreases |es|
  {
    if |es| == 0 then c else Run(Step(c, es[0]), es[1..])
  }

  /** `k` presses of next (or `k` timer ticks) from index `i`. */
  function NextN(i: int, n: int, k: nat): int
    requires n > 0
  {
    if k == 0 then i else Next(NextN(i, n, k - 1), n)
  }

  /** `showSlide(index)`: which of the `n` slides are displayed. */
  function Shown(n: nat, index: int): (r: seq<bool>)
    ensures |r| == n
  {
    seq(n, i => i == index)
  }

  function CountShown(bs: seq<bool>): nat
  {
    if |bs| == 0 then 0 else CountShown(bs[..|bs| - 1]) + (if bs[|bs| - 1] then 1 else 0)
  }

  // ---------------------------------------------------------------------------------------------

  /** Previous undoes next. */
  lemma PrevNext(i: int, n: int)
    requires n > 0 && 0 <= i < n
    ensures Prev(Next(i, n), n) == i
  {
  }

  /** Next undoes previous. */
  lemma NextPrev(i: int, n: int)
    requires n > 0 && 0 <= i < n
    ensures Next(Prev(i, n), n) == i
  {
  }

  /** Next presses compose: `a` presses then `b` presses are `a + b` presses. */
  lemma {:induction false} NextNAdd(i: int, n: int, a: nat, b: nat)
    requires n > 0
    ensures NextN(NextN(i, n, a), n, b) == NextN(i, n, a + b)
  {
    if b > 0 {
      NextNAdd(i, n, a, b - 1);
    }
  }

  /** Before wrapping, `k` presses of next from `i` reach `i + k`. */
  lemma {:induction false} NextNCounts(i: int, n: int, k: nat)
    requires n > 0 && 0 <= i && i + k < n
    ensures NextN(i, n, k) == i + k
  {
    if k > 0 {
      NextNCounts(i, n, k - 1);
    }
  }

  /** `n` presses of next bring the slider back where it started, and no fewer do. */
  lemma NextCycle(i: int, n: int)
    requires n > 0 && 0 <= i < n
    ensures NextN(i, n, n) == i
    ensures forall k: nat :: 0 < k < n ==> NextN(i, n, k) != i
  {
    NextNPast(i, n, n);
    forall k: nat | 0 < k < n ensures NextN(i, n, k) != i {
      if i + k < n {
        NextNCounts(i, n, k);
      } else {
        NextNPast(i, n, k);
      }
    }
  }

  /** `k` presses that pass the last slide land on `i + k - n`. */
  lemma NextNPast(i: int, n: int, k: nat)
    requires n > 0 && 0 <= i < n && n <= i + k < 2 * n
    ensures NextN(i, n, k) == i + k - n
  {
    NextNWraps(i, n);
    NextNCounts(0, n, i + k - n);
    NextNAdd(i, n, n - i, i + k - n);
  }

  /** From `i`, `n - i` presses of next reach the first slide. */
  lemma NextNWraps(i: int, n: int)
    requires n > 0 && 0 <= i < n
    ensures NextN(i, n, n - i) == 0
  {
    NextNCounts(i, n, n - 1 - i);
  }

  /** Whatever the buttons and the timer do, the index stays in range. */
  lemma {:induction false} RunKeepsValid(c: Carousel, es: seq<Event>)
    requires Valid(c)
    ensures Valid(Run(c, es)) && Run(c, es).count == c.count
    decreases |es|
  {
    if |es| > 0 {
      RunKeepsValid(Step(c, es[0]), es[1..]);
    }
  }

  predicate Forward(e: Event) { e.NextClick? || e.Tick? }

  /** Next clicks and timer ticks in any mix move the slider `k` places forward, `k` their number. */
  lemma {:induction false} ForwardRunIsNextN(c: Carousel, es: seq<Event>)
    requires c.count > 0
    requires forall k :: 0 <= k < |es| ==> Forward(es[k])
    ensures Run(c, es).current == NextN(c.current, c.count, |es|)
    ensures Run(c, es).count == c.count
    decreases |es|
  {
    if |es| > 0 {
      var d := Step(c, es[0]);
      assert Forward(es[0]);
      assert d.current == NextN(c.current, c.count, 1);
      ForwardRunIsNextN(d, es[1..]);
      NextNAdd(c.current, c.count, 1, |es| - 1);
    }
  }

  lemma {:induction false} CountShownSingle(n: nat, index: int)
    ensures CountShown(Shown(n, index)) == if 0 <= index < n then 1 else 0
  {
    if n > 0 {
      assert Shown(n, index)[..n - 1] == Shown(n - 1, index);
      CountShownSingle(n - 1, index);
    }
  }

  /** A valid slider displays exactly one slide: the current one. */
  lemma ExactlyOneShown(c: Carousel)
    requires Valid(c)
    ensures CountShown(Shown(c.count, c.current)) == 1
    ensures Shown(c.count, c.current)[c.current]
  {
    CountShownSingle(c.count, c.current);
  }
}
