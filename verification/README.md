# Portfolio page behaviour, modelled in Dafny

This project models the stateful logic of the portfolio page's script `portfolio.js`: four
small, independent event-driven widgets. Each one is a pure state-transition function over
immutable records, and the lemmas are stated over sequences of events.

- **Drawing surface** (`drawing.dfy`, module `Drawing`). The canvas handlers share four
  variables: `isDrawing`, the last point `lastX`/`lastY` and `currentColor`. The canvas bitmap is
  modelled as a `Raster`, which holds the surface size, the background gradient that was last
  painted and the ordered log of pen segments stroked since then. Mouse and touch handlers are
  written out separately in the source but make the same state updates. The model maps both to
  one internal `Input` and proves that each mouse/touch pair steps the same way. Ending a drag
  (mouse up, mouse leave, touch end) only lowers `isDrawing`; the last point is kept, as
  `ReleaseOnlyDisarms` states. Coordinates are
  `client - rect.left/top`, with the rectangle read at every event, so each event carries its own
  offset.
- **Image slider** (`slider.dfy`, module `Slider`). The carousel index is moved by
  `(i + 1) % n` (the next button and the auto-advance timer) and `(i - 1 + n) % n` (the previous
  button). JavaScript's truncating `%` is written out as `JsRem`. `showSlide` is modelled as the
  sequence of slides that are displayed.
- **Contact form** (`contact_form.dfy`, module `ContactForm`). The three fields are trimmed with
  JavaScript's `trim`. The checks then run in order: name, email, message. The email regex
  `/^[^\s@]+@[^\s@]+\.[^\s@]+$/` is stated as a predicate (`EmailPattern`), and `MatchEmail`
  decides it by scanning. A field whose element is missing reads as `undefined`. An undefined
  email is tested as the text `"undefined"`, which never matches.
- **Progress bars** (`progress_bars.dfy`, module `ProgressBars`). This is the `hasAnimated`
  latch together with the visibility test `top < innerHeight && bottom >= 0`. The first check
  runs before the scroll listener is attached. Its `removeEventListener` therefore has nothing to
  remove, so a page whose skills section is in view at load keeps its listener. The latch makes
  that harmless, and `LatchHolds` proves it.

`wrappers.dfy` holds the shared `Option` type.

## Model

| member | source | states |
|---|---|---|
| `Drawing.Init` | portfolio.js:108-124 | The surface starts not drawing, with colour `#f093fb` and a freshly painted background with no segments. |
| `Drawing.ToLocal` | portfolio.js:156-158 | A surface-local point plus the surface's viewport offset gives back the client position. |
| `Drawing.Apply` | portfolio.js:140-216 | No event changes the surface size, and every event keeps the pen style of all segments and the canonical background fill. |
| `Drawing.FallbackCanvas` | portfolio.js:84-113 | The canvas created when the page has none is 800 by 500, its gradient runs to the corner (800, 500), and the starting pen colour is a `#rrggbb` value. |
| `Drawing.Adapt` | portfolio.js:129-216 | The dispatch of DOM events: mouse down and touch start are the down signal, mouse/touch move the move signal, mouse up, mouse leave and touch end the release, both colour events the colour pick, the button the clear. Positions are `client - rect`. |
| `Drawing.DownArms` | portfolio.js:147-152 | Mouse down or touch start sets drawing and puts the last point at `client - rect`, whatever the prior state. Colour and canvas are left alone. |
| `Drawing.IdleMoveIsNoop` | portfolio.js:154-155 | A mouse or touch move while not drawing leaves the whole state unchanged. |
| `Drawing.MoveDrawsOneSegment` | portfolio.js:154-172 | A move while drawing appends exactly one segment. It runs from the last point to the new local point in the current colour, with width 3 and round cap and join. Earlier segments are kept, and the last point becomes the new point. |
| `Drawing.ReleaseOnlyDisarms` | portfolio.js:174-180 | Mouse up, mouse leave and touch end only clear `isDrawing`, keeping the last point. A following move draws nothing. |
| `Drawing.ClearKeepsDragState` | portfolio.js:140-143 | Clear repaints the background with no segments. It keeps the drawing flag, the last point and the colour. |
| `Drawing.ClearIdempotent` | portfolio.js:116-122 | Clearing twice equals clearing once. Clearing a blank surface changes nothing. |
| `Drawing.ColorChangeKeepsRaster` | portfolio.js:129-134 | A colour `change` or `input` event sets the current colour. It leaves every existing segment and the drag state unchanged. |
| `Drawing.MouseTouchAgree` | portfolio.js:183-216 | Touch start, touch move and touch end behave exactly like mouse down, mouse move and mouse up (and mouse leave). |
| `Drawing.ScrollInvariance` | portfolio.js:147-198 | For every down or move event, mouse or touch, moving the pointer and the surface by the same offset gives the same local point and the same step. |
| `Drawing.StepGrowsOrWipes` | portfolio.js:140-216 | Every event either keeps the segment log, extends it by one segment, or (only for clear) empties it. |
| `Drawing.IdleMovesDrawNothing` | portfolio.js:192-194 | Any sequence of moves with no preceding down leaves the state unchanged. |
| `Drawing.DragDrawsPolyline` | portfolio.js:192-211 | While drawing, moves to p1..pn append exactly the polyline last→p1→…→pn in the current colour and leave the pen at pn. |
| `Drawing.Stroke` | portfolio.js:147-180 | From any state, down(p0), moves, release appends exactly the polyline p0→p1→…→pn and ends not drawing at pn. |
| `Drawing.LeaveThenMove` | portfolio.js:178-180 | down(p0), move(p1), leave, move(p2) draws the single segment p0→p1. |
| `Drawing.ClearMidDrag` | portfolio.js:140-172 | down, move(p1), clear, move(p2) leaves the background plus one segment p1→p2, still drawing. |
| `Drawing.ColorAppliesToLaterSegments` | portfolio.js:160-171 | A colour picked between two moves applies to the second segment only. The first keeps the old colour. |
| `Drawing.RunKeepsWellFormed` | portfolio.js:160-163 | Over any event sequence, every segment has width 3 and round cap and join, and the surface size is fixed. |
| `Drawing.HexColorsOnly` | portfolio.js:129-134 | If the pen colour, every segment's colour and every picked colour are `#rrggbb` values, then after any sequence of events the pen colour and every stroked segment's colour still are, so every `strokeStyle` assignment is one the canvas honours. |
| `Slider.JsRem` | portfolio.js:249 | JavaScript `%`: for non-negative dividends it is the mathematical remainder; for negative ones it lies in (-b, 0] and satisfies a = trunc(a / b) * b + r with division truncated toward zero (so `-1 % 3` is -1). |
| `Slider.Next` | portfolio.js:249 | From any index ≥ -1 the result is in [0, n). From a valid index it is i+1, or 0 after the last slide. |
| `Slider.Prev` | portfolio.js:242 | From any index ≥ 1-n the result is in [0, n). From a valid index it is i-1, or n-1 from the first slide. |
| `Slider.Start` | portfolio.js:223-238 | The slider starts valid at slide 0. |
| `Slider.Step` | portfolio.js:240-258 | Prev, next and the timer tick keep the slide count and keep the index in [0, n). |
| `Slider.PrevNext` | portfolio.js:242-249 | prev(next(i)) = i for valid i. |
| `Slider.NextPrev` | portfolio.js:242-249 | next(prev(i)) = i for valid i. |
| `Slider.NextNCounts` | portfolio.js:249 | Before wrapping, k presses of next from i reach i+k. |
| `Slider.NextCycle` | portfolio.js:255-258 | n presses of next (or n timer ticks) return to the start index, and no smaller positive number does. |
| `Slider.ForwardRunIsNextN` | portfolio.js:247-258 | Any mix of next clicks and timer ticks moves the index forward by their count. |
| `Slider.RunKeepsValid` | portfolio.js:237-258 | Over any sequence of button presses and ticks, the index stays in [0, n). |
| `Slider.ExactlyOneShown` | portfolio.js:225-235 | For a valid index, exactly one slide is displayed, and it is the current one. |
| `ContactForm.IsSpace` | portfolio.js:37-42 | The blank set shared by `trim` and `\s`: the ECMAScript WhiteSpace and LineTerminator characters. On ASCII it is exactly tab, line feed, vertical tab, form feed, carriage return and space, and it never contains `@` or `.`. |
| `ContactForm.EmailPattern` | portfolio.js:42 | The regex as a predicate: a non-empty run, `@`, a non-empty run, `.`, a non-empty run, where every character except the `@` is neither blank nor `@`. A match has at least five characters and contains `@` and `.`. |
| `ContactForm.LeadingBlanks` | portfolio.js:37-39 | The number of characters `trim` drops at the front: all of them are blanks, and the character after them, if any, is not. |
| `ContactForm.KeptLength` | portfolio.js:37-39 | Where `trim` cuts at the back: every character from there on is a blank, and the one just before it, if any, is not. |
| `ContactForm.TrimStart` | portfolio.js:37-39 | The result is the suffix of the input after its maximal blank prefix. |
| `ContactForm.TrimEnd` | portfolio.js:37-39 | The result is the prefix of the input before its maximal blank suffix. |
| `ContactForm.Trim` | portfolio.js:37-39 | The result is the input with a blank prefix and a blank suffix cut off, a contiguous slice of it. It is empty exactly when the input is all blanks, and otherwise starts and ends with a non-blank, so exactly the leading and trailing whitespace is removed. |
| `ContactForm.TrimIdempotent` | portfolio.js:37-39 | Trimming a trimmed value changes nothing. |
| `ContactForm.MatchEmail` | portfolio.js:42 | Returns true exactly when the text matches `^[^\s@]+@[^\s@]+\.[^\s@]+$`. |
| `ContactForm.StoredEmailHasOneAt` | portfolio.js:42 | A matching address has exactly one `@`, with a non-empty run of token characters before it. |
| `ContactForm.Submit` | portfolio.js:37-62 | The name error fires exactly when the name is missing or blank. The email error fires exactly when the name is present and the email fails the pattern. The message error fires exactly when both pass and the message is missing or blank. Data is stored exactly when all three pass, and it holds the trimmed values. |
| `ProgressBars.AnimateBars` | portfolio.js:6-13 | After animation the latch is closed. The first call sets every bar's width to its attribute plus `%`, and any later call changes nothing. |
| `ProgressBars.CheckVisibility` | portfolio.js:15-25 | When `#skills` exists and is in view the latch closes and the listener detaches; otherwise nothing changes. Bars change at most from not animated to animated, and consistency is kept. |
| `ProgressBars.OnScroll` | portfolio.js:23-29 | A scroll reaches the check only while the listener is attached. It never re-attaches the listener, never changes animated bars, and keeps consistency. |
| `ProgressBars.AnimateOnce` | portfolio.js:6-13 | Animating twice equals animating once. |
| `ProgressBars.CheckFiresIffVisible` | portfolio.js:15-25 | On an unanimated page, a check animates exactly when `#skills` exists and is in view, and then detaches the listener. Otherwise it changes nothing. |
| `ProgressBars.VisibleIffOverlap` | portfolio.js:21 | For a box with top ≤ bottom and a non-empty viewport, the test holds exactly when the box and the viewport share a point. |
| `ProgressBars.Load` | portfolio.js:27-29 | After load the listener is attached, whatever the first check found, and each bar keeps its attribute. |
| `ProgressBars.LoadConsistent` | portfolio.js:3-29 | At load, widths are set exactly when the section is in view, and only to the attribute plus `%`. |
| `ProgressBars.RunKeepsConsistent` | portfolio.js:15-29 | Over any sequence of scrolls, a width is either unset (latch open) or its attribute plus `%` (latch closed). The latch never reopens. |
| `ProgressBars.LatchHolds` | portfolio.js:7 | Once animated, no sequence of scrolls changes a bar again. |
| `ProgressBars.DetachedIgnoresScrolls` | portfolio.js:23 | Once the listener is removed, scrolling changes nothing. |

## Left out

- Pixel rasterisation is not modelled. `stroke`, `fillRect`, `clearRect` and the gradient's colour interpolation are canvas calls, so the canvas is abstracted to a background descriptor plus the segment log.
- Creating the fallback canvas and toolbar (portfolio.js:78-106) is element construction and is not modelled. Its defaults appear as constants: `FallbackWidth` 800, `FallbackHeight` 500 and `InitialColor` `#f093fb`, and `FallbackCanvas` states the surface they give. The size of an existing canvas is a parameter of `Init`.
- `Drawing.MoveDrawsOneSegment` and `Drawing.ColorAppliesToLaterSegments` describe the colour assigned to `strokeStyle`, recorded in each segment. A canvas ignores a `strokeStyle` value that is not a CSS colour and keeps its previous style; CSS colour parsing is not modelled. An `<input type="color">` such as the toolbar's (portfolio.js:97) only ever reports `#rrggbb` values, and `HexColorsOnly` shows that with such inputs every recorded colour is one the canvas accepts.
- A missing colour picker or clear button (portfolio.js:128, 139) is not modelled as a separate case. Without one, the corresponding events simply never occur.
- `getContext('2d')` returning null is not modelled. A host without a 2-D context is outside the model.
- `preventDefault` in the touch handlers is not modelled. It only suppresses the browser's scrolling.
- A touch event with an empty `touches` list is not modelled. It would throw after `isDrawing = true`. Each touch event carries the position of `touches[0]`, which browsers always supply for touch start and touch move.
- There is no `touchcancel` handler in the source, so there is no cancel event.
- `getBoundingClientRect` and `clientX`/`clientY` are floating point in the browser. The model uses exact reals.
- The five-second `setInterval` timing is not modelled. Only its index arithmetic is, as the `Tick` event.
- `showSlide`'s `classList` and `style.display` writes are not modelled. They are reduced to the boolean sequence `Shown`.
- `alert`, `localStorage.setItem`, `JSON.stringify` and the redirect (portfolio.js:45-62) are side effects. `Submit` returns which alert would be shown, or the data that would be stored.
- `ContactForm`: Dafny characters are Unicode scalar values, while JavaScript strings are UTF-16 code units. Every character `\s` and `trim` treat as blank is in the Basic Multilingual Plane, and a surrogate pair is matched by `[^\s@]` as two token units. The two views therefore agree on which strings match.
- `ProgressBars.AnimateBars` and `ProgressBars.Consistent` describe the text the script assigns to `bar.style.width`, recorded in the `styleWidth` field. The browser drops an assigned value that is not a valid CSS length (such as `"null%"` for a missing attribute, or `"abc%"`), and the bar then keeps its previous inline width; the model does not parse CSS lengths.
- The `querySelectorAll` lookup is modelled as the given bar list.
- The project-card opener (portfolio.js:66-75), the theme toggle (portfolio.js:261-289) and the back-to-top button (portfolio.js:291-308) are not modelled. They only manipulate the DOM, `localStorage` or `window`.
