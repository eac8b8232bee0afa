/**
 * The freehand drawing surface of the portfolio page (portfolio.js, lines 108-216).
 *
 * The handlers share four variables: `isDrawing`, the last point `lastX`/`lastY` and
 * `currentColor`.  Mouse and touch events feed the same variables, the colour picker writes
 * `currentColor`, and the clear button repaints the background.  The canvas itself is a bitmap
 * painted by foreign calls; here it is a `Raster`: the surface size, the background fill that was
 * last painted, and the log of line segments stroked on top of it since then, in order.
 */
module Drawing {

  /** A position in CSS pixels.  JavaScript numbers are modelled as exact reals. */
  datatype Point = Point(x: real, y: real)

  /** The part of `getBoundingClientRect()` the handlers read: the surface's viewport offset. */
  datatype Rect = Rect(left: real, top: real)

  /** The three values `ctx.lineCap` accepts. */
  datatype Cap = ButtCap | RoundCap | SquareCap

  /** The three values `ctx.lineJoin` accepts. */
  datatype Join = MiterJoin | RoundJoin | BevelJoin

  /**
   * One `beginPath(); moveTo(from); lineTo(to); stroke()`; `color` is the text assigned to
   * `strokeStyle` just before.  The canvas strokes in that colour when it is a CSS colour, which
   * `HexColor` guarantees.
   */
  datatype Segment = Segment(from: Point, to: Point, color: string, width: nat, cap: Cap, join: Join)

  /** A two-stop linear gradient filling the whole surface. */
  datatype Gradient = Gradient(start: Point, end: Point, startColor: string, endColor: string)

  /** The canvas: its size, the background fill last painted and the segments stroked since. */
  datatype Raster = Raster(width: nat, height: nat, fill: Gradient, strokes: seq<Segment>)

  /** The handlers' shared variables together with the canvas they paint. */
  datatype State = State(drawing: bool, last: Point, color: string, raster: Raster)

  /** The DOM events the surface listens to.  Touch positions are those of `e.touches[0]`. */
  datatype Event =
    | MouseDown(client: Point, rect: Rect)
    | MouseMove(client: Point, rect: Rect)
    | MouseUp
    | MouseLeave
    | TouchStart(client: Point, rect: Rect)
    | TouchMove(client: Point, rect: Rect)
    | TouchEnd
    | ColorChange(value: string)
    | ColorInput(value: string)
    | ClearClick

  /** The events after the mouse and touch handlers' shared logic is factored out. */
  datatype Input = Down(at: Point) | Move(to: Point) | Release | PickColor(color: string) | Wipe

  const LineWidth: nat := 3
  const InitialColor: string := "#f093fb"
  const GradientStart: string := "#667eea"
  const GradientEnd: string := "#764ba2"

  /** Size of the canvas the page creates when it has none of its own. */
  const FallbackWidth: nat := 800
  const FallbackHeight: nat := 500

  /** The `#rrggbb` form an `<input type="color">` always reports, and every colour the script sets. */
  predicate HexColor(c: string)
  {
    |c| == 7 && c[0] == '#' && forall k :: 1 <= k < 7 ==> HexDigit(c[k])
  }

  predicate HexDigit(d: char)
  {
    '0' <= d <= '9' || 'a' <= d <= 'f' || 'A' <= d <= 'F'
  }

  /** Converts a viewport position to surface-local coordinates, given the offset read at the event. */
  function ToLocal(client: Point, rect: Rect): (p: Point)
    ensures p.x + rect.left == client.x && p.y + rect.top == client.y
  {
    Point(client.x - rect.left, client.y - rect.top)
  }

  /** The gradient `drawBackground` paints: from the top-left to the bottom-right corner. */
  function BackgroundFill(width: nat, height: nat): Gradient
  {
    Gradient(Point(0.0, 0.0), Point(width as real, height as real), GradientStart, GradientEnd)
  }

  /** A freshly painted background with nothing drawn on it. */
  function Background(width: nat, height: nat): (r: Raster)
    ensures r.width == width && r.height == height && |r.strokes| == 0
  {
    Raster(width, height, BackgroundFill(width, height), [])
  }

  /** A segment in the pen style every move handler sets before stroking. */
  function Pen(from: Point, to: Point, color: string): Segment
  {
    Segment(from, to, color, LineWidth, RoundCap, RoundJoin)
  }

  /** Every segment is in the pen style and the fill is the canonical background. */
  predicate WellFormed(r: Raster)
  {
    && r.fill == BackgroundFill(r.width, r.height)
    && forall k :: 0 <= k < |r.strokes| ==> IsPenStroke(r.strokes[k])
  }

  predicate IsPenStroke(g: Segment)
  {
    g.width == LineWidth && g.cap == RoundCap && g.join == RoundJoin
  }

  /** The state right after `drawBackground()` on page load. */
  function Init(width: nat, height: nat): (s: State)
    ensures !s.drawing && s.color == InitialColor && s.raster == Background(width, height)
    ensures WellFormed(s.raster)
  {
    State(false, Point(0.0, 0.0), InitialColor, Background(width, height))
  }

  /** The canvas the page creates when it has none: 800 by 500, gradient corner to corner, pen `#f093fb`. */
  lemma FallbackCanvas()
    ensures var s := Init(FallbackWidth, FallbackHeight);
      && s.raster.width == 800 && s.raster.height == 500
      && s.raster.fill.end == Point(800.0, 500.0)
      && HexColor(s.color)
  {
  }

  /** Mouse and touch handlers do the same thing; this maps each event to what it does. */
  function Adapt(e: Event): (i: Input)
    ensures i.Down? <==> IsDown(e)
    ensures i.Move? <==> IsMove(e)
    ensures i.Release? <==> IsRelease(e)
    ensures i.PickColor? <==> IsColor(e)
    ensures i.Wipe? <==> e.ClearClick?
    ensures i.Down? ==> i.at.x == e.client.x - e.rect.left && i.at.y == e.client.y - e.rect.top
    ensures i.Move? ==> i.to.x == e.client.x - e.rect.left && i.to.y == e.client.y - e.rect.top
    ensures i.PickColor? ==> i.color == e.value
  {
    match e
    case MouseDown(c, r) => Down(ToLocal(c, r))
    case TouchStart(c, r) => Down(ToLocal(c, r))
    case MouseMove(c, r) => Move(ToLocal(c, r))
    case TouchMove(c, r) => Move(ToLocal(c, r))
    case MouseUp => Release
    case MouseLeave => Release
    case TouchEnd => Release
    case ColorChange(v) => PickColor(v)
    case ColorInput(v) => PickColor(v)
    case ClearClick => Wipe
  }

  /** One handler run.  The surface size never changes and the pen style is kept. */
  function Apply(s: State, i: Input): (t: State)
    ensures t.raster.width == s.raster.width && t.raster.height == s.raster.height
    ensures WellFormed(s.raster) ==> WellFormed(t.raster)
  {
    match i
    case Down(p) => s.(drawing := true, last := p)
    case Move(p) =>
      if !s.drawing then s
      else s.(last := p, raster := s.raster.(strokes := s.raster.strokes + [Pen(s.last, p, s.color)]))
    case Release => s.(drawing := false)
    case PickColor(c) => s.(color := c)
    case Wipe => s.(raster := Background(s.raster.width, s.raster.height))
  }

  function Step(s: State, e: Event): State
  {
    Apply(s, Adapt(e))
  }

  /** The state after a sequence of events, handled one after another. */
  function Run(s: State, es: seq<Event>): State
    decreases |es|
  {
    if |es| == 0 then s else Run(Step(s, es[0]), es[1..])
  }

  predicate IsDown(e: Event) { e.MouseDown? || e.TouchStart? }
  predicate IsMove(e: Event) { e.MouseMove? || e.TouchMove? }
  predicate IsRelease(e: Event) { e.MouseUp? || e.MouseLeave? || e.TouchEnd? }
  predicate IsColor(e: Event) { e.ColorChange? || e.ColorInput? }

  /** The surface-local point of a down or move event. */
  function Target(e: Event): Point
    requires IsDown(e) || IsMove(e)
  {
    ToLocal(e.client, e.rect)
  }

  predicate AllMoves(es: seq<Event>)
  {
    forall k :: 0 <= k < |es| ==> IsMove(es[k])
  }

  function MovePoints(es: seq<Event>): (ps: seq<Point>)
    requires AllMoves(es)
    ensures |ps| == |es|
  {
    seq(|es|, k requires 0 <= k < |es| => Target(es[k]))
  }

  /** Reference definition: the polyline through `pts`, one pen segment per consecutive pair. */
  function Polyline(pts: seq<Point>, color: string): (r: seq<Segment>)
    ensures |pts| > 0 ==> |r| == |pts| - 1
  {
    if |pts| < 2 then []
    else seq(|pts| - 1, k requires 0 <= k < |pts| - 1 => Pen(pts[k], pts[k + 1], color))
  }

  // ---------------------------------------------------------------------------------------------
  // Single events

  /** Down (mouse or touch) arms the pen at the surface-local point, whatever the prior state. */
  lemma DownArms(s: State, e: Event)
    requires IsDown(e)
    ensures var t := Step(s, e);
      && t.drawing
      && t.last == Point(e.client.x - e.rect.left, e.client.y - e.rect.top)
      && t.color == s.color && t.raster == s.raster
  {
  }

  /** A move while not drawing changes nothing: no segment, no last point, no mode. */
  lemma IdleMoveIsNoop(s: State, e: Event)
    requires IsMove(e) && !s.drawing
    ensures Step(s, e) == s
  {
  }

  /** A move while drawing strokes exactly one pen segment from the last point, then moves it. */
  lemma MoveDrawsOneSegment(s: State, e: Event)
    requires IsMove(e) && s.drawing
    ensures var t := Step(s, e);
      && |t.raster.strokes| == |s.raster.strokes| + 1
      && t.raster.strokes[..|s.raster.strokes|] == s.raster.strokes
      && var g := t.raster.strokes[|s.raster.strokes|];
      && g.from == s.last && g.to == Target(e) && g.color == s.color
      && g.width == 3 && g.cap == RoundCap && g.join == RoundJoin
      && t.last == Target(e) && t.drawing && t.color == s.color
      && t.raster.fill == s.raster.fill
  {
  }

  /** Up, leave and touchend only lower the flag; the last point stays, and a move then draws nothing. */
  lemma ReleaseOnlyDisarms(s: State, e: Event, m: Event)
    requires IsRelease(e) && IsMove(m)
    ensures Step(s, e) == s.(drawing := false)
    ensures Step(Step(s, e), m) == Step(s, e)
  {
  }

  /** Clear repaints the background and keeps the drag state and colour. */
  lemma ClearKeepsDragState(s: State)
    ensures var t := Step(s, ClearClick);
      && t.raster == Background(s.raster.width, s.raster.height)
      && t.drawing == s.drawing && t.last == s.last && t.color == s.color
  {
  }

  /** Clearing twice is clearing once, and clearing a blank surface changes nothing. */
  lemma ClearIdempotent(s: State)
    ensures Step(Step(s, ClearClick), ClearClick) == Step(s, ClearClick)
    ensures s.raster == Background(s.raster.width, s.raster.height) ==> Step(s, ClearClick) == s
  {
  }

  /** A colour event (`change` or `input`) sets the colour and touches no segment. */
  lemma ColorChangeKeepsRaster(s: State, e: Event)
    requires IsColor(e)
    ensures var t := Step(s, e);
      && t.color == e.value && t.raster == s.raster
      && t.drawing == s.drawing && t.last == s.last
  {
  }

  /** The mouse and touch handlers are interchangeable. */
  lemma MouseTouchAgree(s: State, c: Point, r: Rect)
    ensures Step(s, MouseDown(c, r)) == Step(s, TouchStart(c, r))
    ensures Step(s, MouseMove(c, r)) == Step(s, TouchMove(c, r))
    ensures Step(s, MouseUp) == Step(s, TouchEnd) && Step(s, MouseLeave) == Step(s, TouchEnd)
  {
  }

  /** Shifting the pointer and the surface by the same offset (a page scroll) yields the same point. */
  lemma ScrollInvariance(s: State, e: Event, dx: real, dy: real)
    requires IsDown(e) || IsMove(e)
    ensures Target(Shifted(e, dx, dy)) == Target(e)
    ensures Step(s, Shifted(e, dx, dy)) == Step(s, e)
  {
  }

  /** The same down or move event with the pointer and the surface both moved by (dx, dy). */
  function Shifted(e: Event, dx: real, dy: real): (f: Event)
    requires IsDown(e) || IsMove(e)
    ensures IsDown(f) == IsDown(e) && IsMove(f) == IsMove(e)
  {
    e.(client := Point(e.client.x + dx, e.client.y + dy), rect := Rect(e.rect.left + dx, e.rect.top + dy))
  }

  /** Every event keeps what was drawn, adds one segment to it, or wipes it. */
  lemma StepGrowsOrWipes(s: State, e: Event)
    ensures var before := s.raster.strokes; var after := Step(s, e).raster.strokes;
      || after == before
      || (|after| == |before| + 1 && after[..|before|] == before)
      || (after == [] && e == ClearClick)
  {
  }

  // ---------------------------------------------------------------------------------------------
  // Event sequences

  /** Four events in a row are four steps in a row. */
  lemma RunFour(s: State, a: Event, b: Event, c: Event, d: Event)
    ensures Run(s, [a, b, c, d]) == Step(Step(Step(Step(s, a), b), c), d)
  {
    var s1, s2, s3 := Step(s, a), Step(Step(s, a), b), Step(Step(Step(s, a), b), c);
    assert [a, b, c, d][1..] == [b, c, d];
    assert [b, c, d][1..] == [c, d];
    assert [c, d][1..] == [d];
    assert [d][1..] == [];
    assert Run(s3, [d]) == Run(Step(s3, d), []);
    assert Run(s2, [c, d]) == Run(s3, [d]);
    assert Run(s1, [b, c, d]) == Run(s2, [c, d]);
  }

  lemma {:induction false} RunAppend(s: State, a: seq<Event>, b: seq<Event>)
    ensures Run(s, a + b) == Run(Run(s, a), b)
    decreases |a|
  {
    if |a| == 0 {
      assert a + b == b;
    } else {
      assert (a + b)[0] == a[0];
      assert (a + b)[1..] == a[1..] + b;
      RunAppend(Step(s, a[0]), a[1..], b);
    }
  }

  /** Any run of moves with no preceding down leaves the whole state unchanged. */
  lemma {:induction false} IdleMovesDrawNothing(s: State, es: seq<Event>)
    requires !s.drawing && AllMoves(es)
    ensures Run(s, es) == s
    decreases |es|
  {
    if |es| > 0 {
      assert IsMove(es[0]);
      IdleMoveIsNoop(s, es[0]);
      assert AllMoves(es[1..]) by {
        forall k | 0 <= k < |es[1..]| ensures IsMove(es[1..][k]) {
          assert es[1..][k] == es[k + 1];
        }
      }
      IdleMovesDrawNothing(s, es[1..]);
    }
  }

  lemma PolylineCons(a: Point, pts: seq<Point>, color: string)
    requires |pts| > 0
    ensures Polyline([a] + pts, color) == [Pen(a, pts[0], color)] + Polyline(pts, color)
  {
    var l := Polyline([a] + pts, color);
    var r := [Pen(a, pts[0], color)] + Polyline(pts, color);
    assert |l| == |r|;
    forall k | 0 <= k < |l| ensures l[k] == r[k] {
      if k > 0 {
        assert ([a] + pts)[k] == pts[k - 1];
        assert ([a] + pts)[k + 1] == pts[k];
      }
    }
  }

  /**
   * While drawing, moves to p1 … pn stroke exactly the polyline last → p1 → … → pn in the
   * current colour, on top of what was there, and leave the pen at pn.
   */
  lemma {:induction false} DragDrawsPolyline(s: State, es: seq<Event>)
    requires s.drawing && AllMoves(es)
    ensures var t := Run(s, es); var pts := [s.last] + MovePoints(es);
      && t.drawing && t.color == s.color
      && t.last == pts[|pts| - 1]
      && t.raster == s.raster.(strokes := s.raster.strokes + Polyline(pts, s.color))
    decreases |es|
  {
    var pts := [s.last] + MovePoints(es);
    if |es| == 0 {
      assert s.raster.strokes + Polyline(pts, s.color) == s.raster.strokes;
    } else {
      var s1 := Step(s, es[0]);
      var rest := es[1..];
      assert IsMove(es[0]);
      assert AllMoves(rest) by {
        forall k | 0 <= k < |rest| ensures IsMove(rest[k]) {
          assert rest[k] == es[k + 1];
        }
      }
      var p := Target(es[0]);
      assert s1 == s.(last := p, raster := s.raster.(strokes := s.raster.strokes + [Pen(s.last, p, s.color)]));
      DragDrawsPolyline(s1, rest);
      assert MovePoints(es) == [p] + MovePoints(rest);
      PolylineCons(s.last, MovePoints(es), s.color);
      assert pts == [s.last] + ([p] + MovePoints(rest));
      assert Polyline(pts, s.color) == [Pen(s.last, p, s.color)] + Polyline([p] + MovePoints(rest), s.color);
      assert pts[|pts| - 1] == ([p] + MovePoints(rest))[|[p] + MovePoints(rest)| - 1];
    }
  }

  /**
   * Continuity: from any state, `down(p0), move(p1) … move(pn), end` adds exactly the polyline
   * p0 → p1 → … → pn in the current colour and leaves the pen up at pn.
   */
  lemma Stroke(s: State, down: Event, moves: seq<Event>, end: Event)
    requires IsDown(down) && AllMoves(moves) && IsRelease(end)
    ensures var t := Run(s, [down] + moves + [end]); var pts := [Target(down)] + MovePoints(moves);
      && !t.drawing && t.color == s.color && t.last == pts[|pts| - 1]
      && t.raster == s.raster.(strokes := s.raster.strokes + Polyline(pts, s.color))
  {
    var s1 := Step(s, down);
    RunAppend(s, [down], moves + [end]);
    assert [down] + moves + [end] == [down] + (moves + [end]);
    RunAppend(s1, moves, [end]);
    DragDrawsPolyline(s1, moves);
  }

  /** `down(p0), move(p1), leave, move(p2)` draws the single segment p0 → p1. */
  lemma LeaveThenMove(s: State, down: Event, m1: Event, leave: Event, m2: Event)
    requires IsDown(down) && IsMove(m1) && IsRelease(leave) && IsMove(m2)
    ensures Run(s, [down, m1, leave, m2]).raster.strokes
      == s.raster.strokes + [Pen(Target(down), Target(m1), s.color)]
  {
    var t := Run(s, [down, m1, leave, m2]);
    RunFour(s, down, m1, leave, m2);
  }

  /** `down(p0), move(p1), clear, move(p2)` leaves the background plus the one segment p1 → p2. */
  lemma ClearMidDrag(s: State, down: Event, m1: Event, m2: Event)
    requires IsDown(down) && IsMove(m1) && IsMove(m2)
    ensures var t := Run(s, [down, m1, ClearClick, m2]);
      && t.raster == Background(s.raster.width, s.raster.height).(strokes := [Pen(Target(m1), Target(m2), s.color)])
      && t.drawing && t.last == Target(m2)
  {
    var t := Run(s, [down, m1, ClearClick, m2]);
    RunFour(s, down, m1, ClearClick, m2);
  }

  /** A colour chosen mid-stroke applies to the next segment and not to the one before it. */
  lemma ColorAppliesToLaterSegments(s: State, down: Event, m1: Event, pick: Event, m2: Event)
    requires IsDown(down) && IsMove(m1) && IsColor(pick) && IsMove(m2)
    ensures Run(s, [down, m1, pick, m2]).raster.strokes
      == s.raster.strokes + [Pen(Target(down), Target(m1), s.color), Pen(Target(m1), Target(m2), pick.value)]
  {
    var t := Run(s, [down, m1, pick, m2]);
    RunFour(s, down, m1, pick, m2);
  }

  /** From page load on, every segment is in the pen style and the fill is the gradient. */
  lemma {:induction false} RunKeepsWellFormed(s: State, es: seq<Event>)
    requires WellFormed(s.raster)
    ensures WellFormed(Run(s, es).raster)
    ensures Run(s, es).raster.width == s.raster.width && Run(s, es).raster.height == s.raster.height
    decreases |es|
  {
    if |es| > 0 {
      RunKeepsWellFormed(Step(s, es[0]), es[1..]);
    }
  }

  /** Every segment of the log is stroked in a `#rrggbb` colour. */
  predicate HexStrokes(r: Raster)
  {
    forall k :: 0 <= k < |r.strokes| ==> HexColor(r.strokes[k].color)
  }

  /**
   * When the pen colour and every picked colour are `#rrggbb` values, as a colour input
   * guarantees, every segment ever stroked is in such a colour, so the canvas honours each
   * `strokeStyle` assignment.
   */
  lemma {:induction false} HexColorsOnly(s: State, es: seq<Event>)
    requires HexColor(s.color) && HexStrokes(s.raster)
    requires forall k :: 0 <= k < |es| && IsColor(es[k]) ==> HexColor(es[k].value)
    ensures HexColor(Run(s, es).color) && HexStrokes(Run(s, es).raster)
    decreases |es|
  {
    if |es| > 0 {
      var t := Step(s, es[0]);
      assert HexColor(t.color) && HexStrokes(t.raster);
      assert forall k :: 0 <= k < |es[1..]| && IsColor(es[1..][k]) ==> HexColor(es[1..][k].value) by {
        forall k | 0 <= k < |es[1..]| && IsColor(es[1..][k]) ensures HexColor(es[1..][k].value) {
          assert es[1..][k] == es[k + 1];
        }
      }
      HexColorsOnly(t, es[1..]);
    }
  }
}
